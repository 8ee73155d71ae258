/**
 * The parser on concrete inputs: one block, several selectors, repeated
 * selectors, names carried over from earlier blocks, and the error cases.
 * The line number is left open so that the verifier does not evaluate whole
 * runs on literals.
 */
module ParserExamples {
  import opened Wrappers
  import opened Tokens
  import opened Parser
  import opened ParserProperties

  /** `sel { prop: val; }` gives exactly one entry, sel, mapping exactly prop to val. */
  lemma SingleBlock(sel: string, prop: string, val: string, line: int)
    requires IsWord(sel) && IsWord(prop) && IsWord(val)
    requires prop != "" && val != ""
    ensures var o := Run(Initial(), BlockTokens([sel], [(prop, val)], line));
      o.err == None && o.final.css == map[sel := map[prop := val]]
  {
    FirstBlock([sel], [(prop, val)], line);
    assert DeclMap(map[], [(prop, val)]) == map[prop := val];
  }

  /** `a b { x: 1; }`: two names share one block, and both get its map. */
  lemma TwoSelectorsOneBlock(line: int)
    ensures var o := Run(Initial(), BlockTokens(["a", "b"], [("x", "1")], line));
      o.err == None && o.final.css == map["a" := map["x" := "1"], "b" := map["x" := "1"]]
  {
    var m := map["x" := "1"];
    FirstBlock(["a", "b"], [("x", "1")], line);
    assert DeclMap(map[], [("x", "1")]) == m;
    BindPair(map[], "a", "b", m);
  }

  /** Runs `a { x: v1; } b { y: v2; }` from the start. */
  lemma TwoBlocks(a: string, b: string, x: string, v1: string, y: string, v2: string, line: int)
    requires IsWord(a) && IsWord(b) && IsWord(x) && IsWord(y) && IsWord(v1) && IsWord(v2)
    requires x != "" && y != "" && v1 != "" && v2 != ""
    ensures var css := map[a := map[x := v1]];
      var merged := MergeNames(map[y := v2], css, [a, b]);
      Run(Initial(), BlockTokens([a], [(x, v1)], line) + BlockTokens([b], [(y, v2)], line)) ==
        Outcome(State([a, b], "", "", "", false, BindNames(css, [a, b], merged), map[], BlockEnd), None)
  {
    var first := State([a], "", "", "", false, map[a := map[x := v1]], map[], BlockEnd);
    FirstBlock([a], [(x, v1)], line);
    assert DeclMap(map[], [(x, v1)]) == map[x := v1];
    BindPair(map[], a, b, map[x := v1]);
    RunAppend(Initial(), BlockTokens([a], [(x, v1)], line), BlockTokens([b], [(y, v2)], line));
    BlockRun(first, [b], [(y, v2)], line);
    assert DeclMap(map[], [(y, v2)]) == map[y := v2];
    assert [a] + [b] == [a, b];
  }

  /**
   * `a { x: 1; } b { y: 2; }`: the names are never cleared, so the second
   * block end re-binds `a` too, and both names end up with `{x: 1, y: 2}`.
   */
  lemma EarlierNamesRebound(line: int)
    ensures var o := Run(Initial(), BlockTokens(["a"], [("x", "1")], line) + BlockTokens(["b"], [("y", "2")], line));
      o.err == None && o.final.css == map["a" := map["x" := "1", "y" := "2"], "b" := map["x" := "1", "y" := "2"]]
  {
    TwoBlocks("a", "b", "x", "1", "y", "2", line);
    var css := map["a" := map["x" := "1"]];
    var m := map["x" := "1", "y" := "2"];
    MergePair(map["y" := "2"], css, "a", "b");
    assert MergeOld(map["y" := "2"], css["a"]) == m;
    BindPair(css, "a", "b", m);
  }

  /** `a { x: 1; } a { x: 2; }`: the later block wins on a property both declare. */
  lemma LaterBlockWins(line: int)
    ensures var o := Run(Initial(), BlockTokens(["a"], [("x", "1")], line) + BlockTokens(["a"], [("x", "2")], line));
      o.err == None && o.final.css == map["a" := map["x" := "2"]]
  {
    TwoBlocks("a", "a", "x", "1", "x", "2", line);
    var css := map["a" := map["x" := "1"]];
    var m := map["x" := "2"];
    MergePair(m, css, "a", "a");
    assert MergeOld(m, css["a"]) == m;
    BindPair(css, "a", "a", m);
    assert css["a" := m]["a" := m] == map["a" := m];
  }

  /** `a { x: 1; } a { y: 2; }`: properties the later block does not declare are carried over. */
  lemma RepeatedSelectorMerges(line: int)
    ensures var o := Run(Initial(), BlockTokens(["a"], [("x", "1")], line) + BlockTokens(["a"], [("y", "2")], line));
      o.err == None && o.final.css == map["a" := map["x" := "1", "y" := "2"]]
  {
    TwoBlocks("a", "a", "x", "1", "y", "2", line);
    var css := map["a" := map["x" := "1"]];
    var m := map["x" := "1", "y" := "2"];
    MergePair(map["y" := "2"], css, "a", "a");
    assert MergeOld(map["y" := "2"], css["a"]) == m;
    assert MergeOld(m, css["a"]) == m;
    BindPair(css, "a", "a", m);
    assert css["a" := m]["a" := m] == map["a" := m];
  }

  /** `. foo`: the marker is joined to the following name across whitespace. */
  lemma MarkerJoinsName(line: int)
    ensures Run(Initial(), [Tok(".", line), Space(line), Tok("foo", line)]) ==
      Outcome(Initial().(rule := [".foo"], selector := ".", prev := Value), None)
  {
    var s1 := Initial().(selector := ".", prev := Selector);
    var s2 := s1.(rule := [".foo"], prev := Value);
    assert Step(Initial(), Tok(".", line)) == Next(s1);
    assert Step(s1, Space(line)) == Next(s1);
    assert "." + "foo" == ".foo";
    assert Step(s1, Tok("foo", line)) == Next(s2);
    RunCons(s2, Tok("foo", line), []);
    RunCons(s1, Space(line), [Tok("foo", line)]);
    RunCons(Initial(), Tok(".", line), [Space(line), Tok("foo", line)]);
  }

  /** `. foo { x: 1; }` gives the class selector `.foo` the map `{x: 1}`. */
  lemma ClassSelector(line: int)
    ensures var o := Run(Initial(), [Tok(".", line), Space(line), Tok("foo", line)] + BodyTokens([("x", "1")], line));
      o.err == None && o.final.css == map[".foo" := map["x" := "1"]] && RuleType(".foo") == "class"
  {
    var s2 := Initial().(rule := [".foo"], selector := ".", prev := Value);
    MarkerJoinsName(line);
    RunAppend(Initial(), [Tok(".", line), Space(line), Tok("foo", line)], BodyTokens([("x", "1")], line));
    BodyRun(s2, [("x", "1")], line);
    var m := map["x" := "1"];
    assert DeclMap(map[], [("x", "1")]) == m;
    MergePair(m, map[], ".foo", ".foo");
    BindPair(map[], ".foo", ".foo", m);
  }

  /** `a { x: 1;` without its `}`: the parse succeeds, the block stays open, and nothing is committed. */
  lemma UnterminatedBlock(line: int)
    ensures var o := Run(Initial(), NameTokens(["a"], line) + [Tok("{", line)] + DeclTokens([("x", "1")], line));
      o.err == None && o.final.css == map[] && o.final.isBlock
  {
    NamesRun(Initial(), ["a"], line);
    var s1 := Initial().(rule := [] + ["a"], prev := Value);
    var s2 := s1.(isBlock := true, prev := BlockStart);
    assert Step(s1, Tok("{", line)) == Next(s2);
    RunThrough(Initial(), NameTokens(["a"], line), Tok("{", line), DeclTokens([("x", "1")], line));
    DeclsRun(s2, [("x", "1")], line);
  }

  /** `}` alone: the block ends without a beginning, at its line, and nothing is committed. */
  lemma LoneBlockEnd()
    ensures Run(Initial(), [Tok("}", 1)]) ==
      Outcome(Initial(), Some(ParseError(BlockEndWithoutBeginning, 1)))
  {
    RunCons(Initial(), Tok("}", 1), []);
  }

  /**
   * `a {` newline `x 1;` newline `}`, with whitespace between the tokens, as
   * the scanner yields it, starting on the given line.
   */
  function MissingSeparatorInput(line: int): seq<TokenEntry> {
    [Tok("a", line), Space(line), Tok("{", line)] + MissingSeparatorBody(line)
  }

  /** The part of that input after the `{`. */
  function MissingSeparatorBody(line: int): seq<TokenEntry> {
    [Space(line), Tok("x", line + 1), Space(line + 1), Tok("1", line + 1), Tok(";", line + 1),
     Space(line + 1), Tok("}", line + 2)]
  }

  /** Inside the block, `x` is the property, `1` one more name, and the `;` fails. */
  lemma MissingSeparatorInBlock(line: int)
    ensures var s3 := State(["a", "1"], "x", "", "", true, map[], map[], Value);
      Run(State(["a"], "", "", "", true, map[], map[], BlockStart), MissingSeparatorBody(line)) ==
        Outcome(s3, Some(ParseError(ExpectedStyleBeforeSemicolon, line + 1)))
  {
    var t3, t4, t5, t6 := Tok("x", line + 1), Tok("1", line + 1), Tok(";", line + 1), Tok("}", line + 2);
    var sp, sp' := Space(line), Space(line + 1);
    var q8 := [sp'] + [t6];
    var q7 := [t5] + q8;
    var q6 := [t4] + q7;
    var q5 := [sp'] + q6;
    var q4 := [t3] + q5;
    assert MissingSeparatorBody(line) == [sp] + q4;
    var s2 := State(["a"], "", "", "", true, map[], map[], BlockStart);
    var s3 := s2.(style := "x", prev := Value);
    var s4 := s3.(rule := ["a", "1"]);
    assert Step(s4, t5) == Fail(ParseError(ExpectedStyleBeforeSemicolon, line + 1));
    RunCons(s4, t5, q8);
    assert Step(s3, t4) == Next(s4);
    RunCons(s3, t4, q7);
    RunCons(s3, sp', q6);
    assert Step(s2, t3) == Next(s3);
    RunCons(s2, t3, q5);
    RunCons(s2, sp, q4);
  }

  /**
   * Without the `:` the `1` is read as one more selector name, so the `;`
   * finds no value and the parse stops on the second line.
   */
  lemma MissingSeparatorLine(line: int)
    ensures var o := Run(Initial(), MissingSeparatorInput(line));
      o.err == Some(ParseError(ExpectedStyleBeforeSemicolon, line + 1)) && o.final.css == map[] && o.final.rule == ["a", "1"]
  {
    var t1, sp, t2, body := Tok("a", line), Space(line), Tok("{", line), MissingSeparatorBody(line);
    var q2 := [t2] + body;
    var q1 := [sp] + q2;
    assert MissingSeparatorInput(line) == [t1] + q1;
    var s1 := State(["a"], "", "", "", false, map[], map[], Value);
    var s2 := s1.(isBlock := true, prev := BlockStart);
    MissingSeparatorInBlock(line);
    assert Step(s1, t2) == Next(s2);
    RunCons(s1, t2, body);
    RunCons(s1, sp, q2);
    assert Step(Initial(), t1) == Next(s1);
    RunCons(Initial(), t1, q1);
  }
}
