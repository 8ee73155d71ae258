/**
 * What the parser's state machine guarantees: how runs compose, where and how
 * it fails, that whitespace is invisible, what a block end commits, and the
 * invariants every reachable state keeps.
 */
module ParserProperties {
  import opened Wrappers
  import opened Tokens
  import opened Parser

  // ---------------------------------------------------------------------------
  // Runs compose; an error ends the run
  // ---------------------------------------------------------------------------

  /** Running a + b is running a, then, unless a failed, running b from where a ended. */
  lemma {:induction false} RunAppend(st: State, a: seq<TokenEntry>, b: seq<TokenEntry>)
    ensures Run(st, a + b) ==
      (var o := Run(st, a); if o.err.Some? then o else Run(o.final, b))
    decreases |a|
  {
    if a == [] {
      assert a + b == b;
    } else {
      assert (a + b)[0] == a[0];
      assert (a + b)[1..] == a[1..] + b;
      match Step(st, a[0])
      case Fail(e) =>
      case Next(st') => RunAppend(st', a[1..], b);
    }
  }

  /**
   * A failed run stopped at one token: every token before it succeeded and
   * left the final state, that token failed on it, and the error carries that
   * token's line.
   */
  lemma {:induction false} FailureAtToken(st: State, q: seq<TokenEntry>)
    requires Run(st, q).err.Some?
    ensures exists i :: (0 <= i < |q| &&
      Run(st, q[..i]) == Outcome(Run(st, q).final, None) &&
      Step(Run(st, q).final, q[i]) == Fail(Run(st, q).err.value) &&
      Run(st, q).err.value.line == q[i].token.line)
    decreases |q|
  {
    assert q != [];
    if Step(st, q[0]).Fail? {
      assert q[..0] == [];
    } else {
      var st', rest := Step(st, q[0]).st, q[1..];
      assert Run(st, q) == Run(st', rest);
      FailureAtToken(st', rest);
      var i :| 0 <= i < |rest| &&
        Run(st', rest[..i]) == Outcome(Run(st', rest).final, None) &&
        Step(Run(st', rest).final, rest[i]) == Fail(Run(st', rest).err.value) &&
        Run(st', rest).err.value.line == rest[i].token.line;
      assert q[..i + 1] == [q[0]] + rest[..i];
      RunCons(st, q[0], rest[..i]);
      assert q[i + 1] == rest[i];
    }
  }

  // ---------------------------------------------------------------------------
  // The three guards
  // ---------------------------------------------------------------------------

  /** `{` opens a block exactly when it follows a value; otherwise the parse stops there. */
  lemma {:induction false} BlockStartGuard(st: State, a: seq<TokenEntry>, e: TokenEntry, b: seq<TokenEntry>)
    requires Run(st, a).err.None?
    requires !IsSpace(e) && e.value == "{"
    ensures var s := Run(st, a).final;
      Run(st, a + [e] + b) ==
        if s.prev != Value then Outcome(s, Some(ParseError(MissingRuleIdentifier, e.token.line)))
        else Run(s.(isBlock := true, prev := BlockStart), b)
  {
    RunThrough(st, a, e, b);
  }

  /** `;` commits `style: value` exactly when it follows a value and both are non-empty. */
  lemma {:induction false} StatementEndGuard(st: State, a: seq<TokenEntry>, e: TokenEntry, b: seq<TokenEntry>)
    requires Run(st, a).err.None?
    requires !IsSpace(e) && e.value == ";"
    ensures var s := Run(st, a).final;
      Run(st, a + [e] + b) ==
        if s.prev != Value || s.style == "" || s.value == "" then
          Outcome(s, Some(ParseError(ExpectedStyleBeforeSemicolon, e.token.line)))
        else Run(s.(styles := s.styles[s.style := s.value], prev := StatementEnd), b)
  {
    RunThrough(st, a, e, b);
  }

  /** `}` is accepted exactly inside a block; otherwise the parse stops there with the stylesheet as it was. */
  lemma {:induction false} BlockEndGuard(st: State, a: seq<TokenEntry>, e: TokenEntry, b: seq<TokenEntry>)
    requires Run(st, a).err.None?
    requires !IsSpace(e) && e.value == "}"
    ensures var s := Run(st, a).final;
      !s.isBlock ==> Run(st, a + [e] + b) == Outcome(s, Some(ParseError(BlockEndWithoutBeginning, e.token.line)))
    ensures var s := Run(st, a).final;
      s.isBlock ==> Step(s, e).Next? && Run(st, a + [e] + b) == Run(Step(s, e).st, b)
  {
    RunThrough(st, a, e, b);
  }

  /** Running a token in front of a list: one step, then the list from the state it leaves. */
  lemma RunCons(st: State, e: TokenEntry, q: seq<TokenEntry>)
    ensures Run(st, [e] + q) ==
      if Step(st, e).Fail? then Outcome(st, Some(Step(st, e).err)) else Run(Step(st, e).st, q)
  {
    assert ([e] + q)[0] == e && ([e] + q)[1..] == q;
  }

  /** Running a, one token e, then b. */
  lemma {:induction false} RunThrough(st: State, a: seq<TokenEntry>, e: TokenEntry, b: seq<TokenEntry>)
    requires Run(st, a).err.None?
    ensures var s := Run(st, a).final;
      Run(st, a + [e] + b) ==
        if Step(s, e).Fail? then Outcome(s, Some(Step(s, e).err)) else Run(Step(s, e).st, b)
  {
    assert a + [e] + b == a + ([e] + b);
    RunAppend(st, a, [e] + b);
    RunCons(Run(st, a).final, e, b);
  }

  // ---------------------------------------------------------------------------
  // The "invalid syntax" branch is unreachable
  // ---------------------------------------------------------------------------

  /** From any state whose previous kind the classifier can produce, no run fails with invalid syntax. */
  lemma {:induction false} NoInvalidSyntaxFrom(st: State, q: seq<TokenEntry>)
    requires st.prev != RuleName
    ensures Run(st, q).err.Some? ==> Run(st, q).err.value.kind != InvalidSyntax
    ensures Run(st, q).final.prev != RuleName
    decreases |q|
  {
    if q != [] {
      match Step(st, q[0])
      case Fail(e) =>
      case Next(st') => NoInvalidSyntaxFrom(st', q[1..]);
    }
  }

  /** A parse never reports invalid syntax. */
  lemma InvalidSyntaxUnreachable(q: seq<TokenEntry>)
    ensures Run(Initial(), q).err.Some? ==> Run(Initial(), q).err.value.kind != InvalidSyntax
  {
    NoInvalidSyntaxFrom(Initial(), q);
  }

  // ---------------------------------------------------------------------------
  // Whitespace is invisible
  // ---------------------------------------------------------------------------

  /** The tokens other than whitespace, in order. */
  function Significant(q: seq<TokenEntry>): (r: seq<TokenEntry>)
    ensures |r| <= |q|
    ensures forall i :: 0 <= i < |r| ==> !IsSpace(r[i])
    decreases |q|
  {
    if q == [] then []
    else if IsSpace(q[0]) then Significant(q[1..])
    else [q[0]] + Significant(q[1..])
  }

  /** Dropping whitespace keeps exactly the other tokens, and a list without whitespace is unchanged. */
  lemma {:induction false} SignificantKeeps(q: seq<TokenEntry>)
    ensures forall x :: x in Significant(q) <==> x in q && !IsSpace(x)
    ensures (forall i :: 0 <= i < |q| ==> !IsSpace(q[i])) ==> Significant(q) == q
    decreases |q|
  {
    if q != [] {
      SignificantKeeps(q[1..]);
      assert forall x :: x in q <==> x == q[0] || x in q[1..];
    }
  }

  /** Dropping whitespace keeps the order: it distributes over concatenation. */
  lemma {:induction false} SignificantAppend(a: seq<TokenEntry>, b: seq<TokenEntry>)
    ensures Significant(a + b) == Significant(a) + Significant(b)
    decreases |a|
  {
    if a == [] {
      assert a + b == b;
    } else {
      assert (a + b)[0] == a[0] && (a + b)[1..] == a[1..] + b;
      SignificantAppend(a[1..], b);
    }
  }

  /** Removing every whitespace token does not change the outcome. */
  lemma {:induction false} WhitespaceInvisible(st: State, q: seq<TokenEntry>)
    ensures Run(st, q) == Run(st, Significant(q))
    decreases |q|
  {
    if q != [] {
      if IsSpace(q[0]) {
        WhitespaceInvisible(st, q[1..]);
      } else {
        var r := [q[0]] + Significant(q[1..]);
        assert r[0] == q[0] && r[1..] == Significant(q[1..]);
        match Step(st, q[0])
        case Fail(e) =>
        case Next(st') => WhitespaceInvisible(st', q[1..]);
      }
    }
  }

  /** Inputs that differ only in whitespace tokens parse alike. */
  lemma WhitespaceIrrelevant(a: seq<TokenEntry>, b: seq<TokenEntry>)
    requires Significant(a) == Significant(b)
    ensures Run(Initial(), a) == Run(Initial(), b)
  {
    WhitespaceInvisible(Initial(), a);
    WhitespaceInvisible(Initial(), b);
  }

  // ---------------------------------------------------------------------------
  // What a block end commits
  // ---------------------------------------------------------------------------

  /** Whether the earlier entry of name n declares property k. */
  predicate Declares(css: Stylesheet, n: string, k: string) {
    n in css && k in css[n]
  }

  /**
   * The merged map has exactly the block's properties and those of the names'
   * earlier entries; the block's own value wins, and otherwise the earliest
   * name that declares the property gives its value.
   */
  lemma {:induction false} MergeNamesSpec(styles: StyleMap, css: Stylesheet, names: seq<string>, k: string)
    ensures k in MergeNames(styles, css, names) <==>
      k in styles || exists i :: 0 <= i < |names| && Declares(css, names[i], k)
    ensures k in styles ==> MergeNames(styles, css, names)[k] == styles[k]
    ensures forall j :: (0 <= j < |names| && k !in styles && Declares(css, names[j], k) &&
        (forall i :: 0 <= i < j ==> !Declares(css, names[i], k))) ==>
      MergeNames(styles, css, names)[k] == css[names[j]][k]
    decreases |names|
  {
    if names != [] {
      var merged := if names[0] in css then MergeOld(styles, css[names[0]]) else styles;
      MergeNamesSpec(merged, css, names[1..], k);
      assert k in merged <==> k in styles || Declares(css, names[0], k);
      if exists i :: 0 <= i < |names| && Declares(css, names[i], k) {
        var i :| 0 <= i < |names| && Declares(css, names[i], k);
        if i > 0 {
          assert names[1..][i - 1] == names[i];
        }
      }
      forall j | 0 <= j < |names[1..]| && Declares(css, names[1..][j], k)
        ensures Declares(css, names[j + 1], k)
      {
      }
    }
  }

  /**
   * The merge as the Go loop interleaves it with binding: every name bound
   * earlier in the same loop (in bound) already holds the shared block map,
   * so merging its entry reads that map back.
   */
  function InterleavedMerge(styles: StyleMap, css: Stylesheet, names: seq<string>, bound: set<string>): StyleMap
    decreases |names|
  {
    if names == [] then styles
    else
      var n := names[0];
      var merged := if n in bound then MergeOld(styles, styles)
        else if n in css then MergeOld(styles, css[n]) else styles;
      InterleavedMerge(merged, css, names[1..], bound + {n})
  }

  /**
   * Merging all names first and binding afterwards gives the interleaved
   * loop's map: a name seen twice contributes nothing new the second time.
   */
  lemma {:induction false} InterleavedMergeAgrees(styles: StyleMap, css: Stylesheet, names: seq<string>, bound: set<string>)
    requires forall n :: n in bound && n in css ==> css[n].Keys <= styles.Keys
    ensures InterleavedMerge(styles, css, names, bound) == MergeNames(styles, css, names)
    decreases |names|
  {
    if names != [] {
      var n := names[0];
      var merged := if n in css then MergeOld(styles, css[n]) else styles;
      assert MergeOld(styles, styles) == styles;
      if n in bound && n in css {
        assert merged == styles;
      }
      InterleavedMergeAgrees(merged, css, names[1..], bound + {n});
    }
  }

  /** Binding gives every listed name the map m and leaves every other entry alone. */
  lemma {:induction false} BindNamesSpec(css: Stylesheet, names: seq<string>, m: StyleMap)
    ensures BindNames(css, names, m).Keys == css.Keys + set n | n in names
    ensures forall n :: n in names ==> BindNames(css, names, m)[n] == m
    ensures forall n :: n in css && n !in names ==> BindNames(css, names, m)[n] == css[n]
    decreases |names|
  {
    if names != [] {
      BindNamesSpec(css[names[0] := m], names[1..], m);
      assert forall n :: n in names <==> n == names[0] || n in names[1..];
    }
  }

  /**
   * An accepted `}` binds every accumulated name to one map, merged as
   * MergeNamesSpec describes; other entries are unchanged; the block's
   * declarations, property and value are reset and the block closed, while
   * the names and the selector marker are kept.
   */
  lemma BlockEndCommits(st: State, e: TokenEntry)
    requires !IsSpace(e) && e.value == "}" && st.isBlock
    ensures Step(st, e).Next?
    ensures var s := Step(st, e).st;
      && s.css.Keys == st.css.Keys + (set n | n in st.rule)
      && (forall n :: n in st.rule ==> s.css[n] == MergeNames(st.styles, st.css, st.rule))
      && (forall n :: n in st.css && n !in st.rule ==> s.css[n] == st.css[n])
      && s.styles == map[] && s.style == "" && s.value == "" && !s.isBlock
      && s.rule == st.rule && s.selector == st.selector && s.prev == BlockEnd
  {
    BindNamesSpec(st.css, st.rule, MergeNames(st.styles, st.css, st.rule));
  }

  // ---------------------------------------------------------------------------
  // Only a block end writes the stylesheet
  // ---------------------------------------------------------------------------

  /** Without an `}`, a run leaves the stylesheet as it was: an unterminated block commits nothing. */
  lemma {:induction false} NoBlockEndNoCommit(st: State, q: seq<TokenEntry>)
    requires forall i :: 0 <= i < |q| ==> IsSpace(q[i]) || q[i].value != "}"
    ensures Run(st, q).final.css == st.css
    decreases |q|
  {
    if q != [] {
      match Step(st, q[0])
      case Fail(e) =>
      case Next(st') =>
        assert st'.css == st.css;
        NoBlockEndNoCommit(st', q[1..]);
    }
  }

  // ---------------------------------------------------------------------------
  // Invariants of every reachable state
  // ---------------------------------------------------------------------------

  /**
   * The names are never cleared, so every committed name is still among them
   * and was re-bound at the last `}`: all entries are one and the same map.
   * The previous kind is one the classifier produces.
   */
  predicate Coherent(st: State) {
    && st.prev != RuleName
    && (forall n :: n in st.css ==> n in st.rule)
    && (forall a, b :: a in st.css && b in st.css ==> st.css[a] == st.css[b])
  }

  lemma StepKeepsCoherent(st: State, e: TokenEntry)
    requires Coherent(st)
    requires Step(st, e).Next?
    ensures Coherent(Step(st, e).st)
    ensures st.rule <= Step(st, e).st.rule
  {
    if !IsSpace(e) && e.value == "}" {
      BlockEndCommits(st, e);
    }
  }

  /** Every run keeps the state coherent, and the names only ever grow. */
  lemma {:induction false} RunKeepsCoherent(st: State, q: seq<TokenEntry>)
    requires Coherent(st)
    ensures Coherent(Run(st, q).final)
    ensures st.rule <= Run(st, q).final.rule
    decreases |q|
  {
    if q != [] {
      match Step(st, q[0])
      case Fail(e) =>
      case Next(st') =>
        StepKeepsCoherent(st, q[0]);
        RunKeepsCoherent(st', q[1..]);
    }
  }

  /** Every stylesheet a parse returns, complete or partial, maps all its selectors to one map. */
  lemma ParsedEntriesAgree(q: seq<TokenEntry>)
    ensures var css := Run(Initial(), q).final.css;
      forall a, b :: a in css && b in css ==> css[a] == css[b]
  {
    RunKeepsCoherent(Initial(), q);
  }

  // ---------------------------------------------------------------------------
  // A well-formed block
  // ---------------------------------------------------------------------------

  /** A non-whitespace token with the given text on the given line. */
  function Tok(text: string, line: int): TokenEntry {
    TokenEntry(text, ScanToken(TokenOther, text, line))
  }

  /** A whitespace token on the given line. */
  function Space(line: int): TokenEntry {
    TokenEntry(" ", ScanToken(TokenS, " ", line))
  }

  /** Text that the classifier reads as a value. */
  predicate IsWord(s: string) {
    s !in Punctuation
  }

  /** Selector names that are single value tokens. */
  predicate Words(names: seq<string>) {
    forall i :: 0 <= i < |names| ==> IsWord(names[i])
  }

  /** Declarations whose names and values are non-empty value tokens. */
  predicate Declarations(decls: seq<(string, string)>) {
    forall i :: 0 <= i < |decls| ==>
      IsWord(decls[i].0) && IsWord(decls[i].1) && decls[i].0 != "" && decls[i].1 != ""
  }

  /** The tokens of the names `n1 n2 ...`. */
  function NameTokens(names: seq<string>, line: int): seq<TokenEntry>
    decreases |names|
  {
    if names == [] then [] else [Tok(names[0], line)] + NameTokens(names[1..], line)
  }

  /** The tokens of the declarations `p1 : v1 ; p2 : v2 ; ...`. */
  function DeclTokens(decls: seq<(string, string)>, line: int): seq<TokenEntry>
    decreases |decls|
  {
    if decls == [] then []
    else [Tok(decls[0].0, line), Tok(":", line), Tok(decls[0].1, line), Tok(";", line)] + DeclTokens(decls[1..], line)
  }

  /** The tokens of a block's body `{ p1 : v1 ; ... }`. */
  function BodyTokens(decls: seq<(string, string)>, line: int): seq<TokenEntry> {
    [Tok("{", line)] + DeclTokens(decls, line) + [Tok("}", line)]
  }

  /** The tokens of the block `n1 n2 ... { p1 : v1 ; ... }`. */
  function BlockTokens(names: seq<string>, decls: seq<(string, string)>, line: int): seq<TokenEntry> {
    NameTokens(names, line) + BodyTokens(decls, line)
  }

  /** The declarations written into a map in order: a later declaration of a property wins. */
  function DeclMap(styles: StyleMap, decls: seq<(string, string)>): StyleMap
    decreases |decls|
  {
    if decls == [] then styles else DeclMap(styles[decls[0].0 := decls[0].1], decls[1..])
  }

  /**
   * The exact successor of every non-whitespace token: each kind writes only
   * the fields its branch names and the previous kind, and leaves every other
   * field as it was.
   */
  lemma StepTransitions(st: State, e: TokenEntry)
    requires !IsSpace(e)
    ensures e.value == "." || e.value == "#" ==> Step(st, e) == Next(st.(selector := e.value, prev := Selector))
    ensures e.value == ":" ==> Step(st, e) == Next(st.(prev := StyleSeparator))
    ensures e.value == "{" && st.prev == Value ==> Step(st, e) == Next(st.(isBlock := true, prev := BlockStart))
    ensures e.value == ";" && st.prev == Value && st.style != "" && st.value != "" ==>
      Step(st, e) == Next(st.(styles := st.styles[st.style := st.value], prev := StatementEnd))
    ensures IsWord(e.value) && st.prev in {FirstToken, BlockEnd, Value} ==>
      Step(st, e) == Next(st.(rule := st.rule + [e.value], prev := Value))
    ensures IsWord(e.value) && st.prev == Selector ==>
      Step(st, e) == Next(st.(rule := st.rule + [st.selector + e.value], prev := Value))
    ensures IsWord(e.value) && st.prev in {BlockStart, StatementEnd} ==>
      Step(st, e) == Next(st.(style := e.value, prev := Value))
    ensures IsWord(e.value) && st.prev == StyleSeparator ==>
      Step(st, e) == Next(st.(value := e.value, prev := Value))
    ensures IsWord(e.value) && st.prev == RuleName ==>
      Step(st, e) == Fail(ParseError(InvalidSyntax, e.token.line))
  {
  }

  /**
   * A property whose `:` is missing reuses the value still held from the
   * previous declaration: `p: v; q;` inside a block declares both p and q as v.
   */
  lemma ValueSurvivesSemicolon(st: State, p: string, q: string, v: string, line: int)
    requires st.prev == BlockStart
    requires IsWord(p) && IsWord(q) && IsWord(v) && p != "" && q != "" && v != ""
    ensures Run(st, [Tok(p, line), Tok(":", line), Tok(v, line), Tok(";", line), Tok(q, line), Tok(";", line)]) ==
      Outcome(st.(style := q, value := v, styles := st.styles[p := v][q := v], prev := StatementEnd), None)
  {
    var t1, t2, t3, t4, t5 := Tok(p, line), Tok(":", line), Tok(v, line), Tok(";", line), Tok(q, line);
    var r5 := [t4];
    var r4 := [t5] + r5;
    var r3 := [t4] + r4;
    var r2 := [t3] + r3;
    var r1 := [t2] + r2;
    assert [t1, t2, t3, t4, t5, t4] == [t1] + r1;
    var s1 := st.(style := p, prev := Value);
    var s2 := s1.(prev := StyleSeparator);
    var s3 := s2.(value := v, prev := Value);
    var s4 := s3.(styles := st.styles[p := v], prev := StatementEnd);
    var s5 := s4.(style := q, prev := Value);
    var s6 := s5.(styles := st.styles[p := v][q := v], prev := StatementEnd);
    StepTransitions(s5, t4);
    RunCons(s5, t4, []);
    StepTransitions(s4, t5);
    RunCons(s4, t5, r5);
    StepTransitions(s3, t4);
    RunCons(s3, t4, r4);
    StepTransitions(s2, t3);
    RunCons(s2, t3, r3);
    StepTransitions(s1, t2);
    RunCons(s1, t2, r2);
    StepTransitions(st, t1);
    RunCons(st, t1, r1);
  }

  /**
   * A selector marker followed by a value: the marker is recorded, and the
   * value is appended to the names joined to it.
   */
  lemma MarkerRun(st: State, m: string, v: string, line: int)
    requires m == "." || m == "#"
    requires IsWord(v)
    ensures Run(st, [Tok(m, line), Tok(v, line)]) ==
      Outcome(st.(selector := m, rule := st.rule + [m + v], prev := Value), None)
  {
    var s1 := st.(selector := m, prev := Selector);
    assert Step(st, Tok(m, line)) == Next(s1);
    RunCons(s1, Tok(v, line), []);
    RunCons(st, Tok(m, line), [Tok(v, line)]);
  }

  /** Names after a block end, the first token or another name are all collected. */
  lemma {:induction false} NamesRun(st: State, names: seq<string>, line: int)
    requires st.prev == FirstToken || st.prev == BlockEnd || st.prev == Value
    requires Words(names)
    ensures Run(st, NameTokens(names, line)) ==
      Outcome(st.(rule := st.rule + names, prev := if names == [] then st.prev else Value), None)
    decreases |names|
  {
    if names == [] {
      assert st.rule + names == st.rule;
    } else {
      var st1 := st.(rule := st.rule + [names[0]], prev := Value);
      assert IsWord(names[0]);
      assert Step(st, Tok(names[0], line)) == Next(st1);
      RunCons(st, Tok(names[0], line), NameTokens(names[1..], line));
      assert Words(names[1..]) by {
        forall i | 0 <= i < |names[1..]| ensures IsWord(names[1..][i]) {
          assert names[1..][i] == names[i + 1];
        }
      }
      NamesRun(st1, names[1..], line);
      assert st1.rule + names[1..] == st.rule + names;
    }
  }

  /** Declarations inside a block commit each pair and touch nothing but the open block's map. */
  lemma {:induction false} DeclsRun(st: State, decls: seq<(string, string)>, line: int)
    requires st.prev == BlockStart || st.prev == StatementEnd
    requires Declarations(decls)
    ensures var o := Run(st, DeclTokens(decls, line));
      && o.err == None
      && o.final.rule == st.rule && o.final.css == st.css && o.final.selector == st.selector
      && o.final.isBlock == st.isBlock
      && o.final.styles == DeclMap(st.styles, decls)
      && (o.final.prev == BlockStart || o.final.prev == StatementEnd)
    decreases |decls|
  {
    if decls != [] {
      var (p, v) := decls[0];
      assert IsWord(p) && IsWord(v) && p != "" && v != "";
      var rest := DeclTokens(decls[1..], line);
      var s1 := st.(style := p, prev := Value);
      var s2 := s1.(prev := StyleSeparator);
      var s3 := s2.(value := v, prev := Value);
      var s4 := s3.(styles := st.styles[p := v], prev := StatementEnd);
      assert Step(st, Tok(p, line)) == Next(s1);
      assert Step(s1, Tok(":", line)) == Next(s2);
      assert Step(s2, Tok(v, line)) == Next(s3);
      assert Step(s3, Tok(";", line)) == Next(s4);
      RunCons(s3, Tok(";", line), rest);
      RunCons(s2, Tok(v, line), [Tok(";", line)] + rest);
      RunCons(s1, Tok(":", line), [Tok(v, line)] + ([Tok(";", line)] + rest));
      RunCons(st, Tok(p, line), [Tok(":", line)] + ([Tok(v, line)] + ([Tok(";", line)] + rest)));
      assert DeclTokens(decls, line) ==
        [Tok(p, line)] + ([Tok(":", line)] + ([Tok(v, line)] + ([Tok(";", line)] + rest)));
      assert Declarations(decls[1..]) by {
        forall i | 0 <= i < |decls[1..]|
          ensures IsWord(decls[1..][i].0) && IsWord(decls[1..][i].1) && decls[1..][i].0 != "" && decls[1..][i].1 != ""
        {
          assert decls[1..][i] == decls[i + 1];
        }
      }
      DeclsRun(s4, decls[1..], line);
    }
  }

  /**
   * A well-formed body after a name binds ALL collected names, earlier
   * blocks' included, to the body's declarations merged with the names'
   * earlier entries, and resets the block state.
   */
  lemma {:induction false} BodyRun(st: State, decls: seq<(string, string)>, line: int)
    requires st.prev == Value
    requires Declarations(decls)
    ensures var merged := MergeNames(DeclMap(st.styles, decls), st.css, st.rule);
      Run(st, BodyTokens(decls, line)) ==
        Outcome(st.(css := BindNames(st.css, st.rule, merged), styles := map[],
                    style := "", value := "", isBlock := false, prev := BlockEnd), None)
  {
    var dt := DeclTokens(decls, line);
    var open, close := Tok("{", line), Tok("}", line);
    var s1 := st.(isBlock := true, prev := BlockStart);
    assert Step(st, open) == Next(s1);
    RunCons(st, open, dt + [close]);
    DeclsRun(s1, decls, line);
    var s2 := Run(s1, dt).final;
    RunAppend(s1, dt, [close]);
    RunCons(s2, close, []);
    assert BodyTokens(decls, line) == [open] + (dt + [close]);
  }

  /**
   * A well-formed block after a block end (or at the start) appends its names
   * to the ones already collected and then commits as BodyRun describes.
   */
  lemma {:induction false} BlockRun(st: State, names: seq<string>, decls: seq<(string, string)>, line: int)
    requires st.prev == FirstToken || st.prev == BlockEnd
    requires names != [] && Words(names) && Declarations(decls)
    ensures var rule := st.rule + names;
      var merged := MergeNames(DeclMap(st.styles, decls), st.css, rule);
      Run(st, BlockTokens(names, decls, line)) ==
        Outcome(st.(rule := rule, css := BindNames(st.css, rule, merged), styles := map[],
                    style := "", value := "", isBlock := false, prev := BlockEnd), None)
  {
    NamesRun(st, names, line);
    RunAppend(st, NameTokens(names, line), BodyTokens(decls, line));
    BodyRun(st.(rule := st.rule + names, prev := Value), decls, line);
  }

  /** With no earlier entries, merging changes nothing. */
  lemma {:induction false} MergeNamesEmpty(styles: StyleMap, names: seq<string>)
    ensures MergeNames(styles, map[], names) == styles
    decreases |names|
  {
    if names != [] {
      MergeNamesEmpty(styles, names[1..]);
    }
  }

  /** Merging over one name is one MergeOld step, when the name has an entry. */
  lemma MergeOne(styles: StyleMap, css: Stylesheet, a: string)
    ensures MergeNames(styles, css, [a]) == if a in css then MergeOld(styles, css[a]) else styles
  {
    assert [a][1..] == [];
  }

  /** Merging over two names, written out. */
  lemma MergePair(styles: StyleMap, css: Stylesheet, a: string, b: string)
    ensures MergeNames(styles, css, [a]) == if a in css then MergeOld(styles, css[a]) else styles
    ensures var s1 := if a in css then MergeOld(styles, css[a]) else styles;
      MergeNames(styles, css, [a, b]) == if b in css then MergeOld(s1, css[b]) else s1
  {
    var s1 := if a in css then MergeOld(styles, css[a]) else styles;
    assert [a, b][1..] == [b];
    assert MergeNames(styles, css, [a, b]) == MergeNames(s1, css, [b]);
    MergeOne(styles, css, a);
    MergeOne(s1, css, b);
  }

  /** Binding one name is one map update. */
  lemma BindOne(css: Stylesheet, a: string, m: StyleMap)
    ensures BindNames(css, [a], m) == css[a := m]
  {
    assert [a][1..] == [];
  }

  /** Binding two names, written out. */
  lemma BindPair(css: Stylesheet, a: string, b: string, m: StyleMap)
    ensures BindNames(css, [a], m) == css[a := m]
    ensures BindNames(css, [a, b], m) == css[a := m][b := m]
  {
    assert [a, b][1..] == [b];
    assert BindNames(css, [a, b], m) == BindNames(css[a := m], [b], m);
    BindOne(css, a, m);
    BindOne(css[a := m], b, m);
  }

  /** The first block of the input binds its names to exactly its own declarations. */
  lemma FirstBlock(names: seq<string>, decls: seq<(string, string)>, line: int)
    requires names != [] && Words(names) && Declarations(decls)
    ensures Run(Initial(), BlockTokens(names, decls, line)) ==
      Outcome(State(names, "", "", "", false, BindNames(map[], names, DeclMap(map[], decls)), map[], BlockEnd), None)
  {
    BlockRun(Initial(), names, decls, line);
    assert [] + names == names;
    MergeNamesEmpty(DeclMap(map[], decls), names);
  }
}
