/**
 * The single-pass state machine that turns the token list into a stylesheet:
 * a map from selector name to its property/value map.
 *
 * Step and Run are the specification: one token at a time on an explicit
 * parser state. Parse is the loop that removes the list's front and updates
 * local variables, proved to compute exactly what Run computes.
 */
module Parser {
  import opened Wrappers
  import opened Tokens

  type StyleMap = map<string, string>
  type Stylesheet = map<string, StyleMap>

  /** The four ways a parse fails. */
  datatype ErrorKind =
    | InvalidSyntax                     // a value after a kind no rule covers
    | MissingRuleIdentifier             // `{` not preceded by a value
    | ExpectedStyleBeforeSemicolon      // `;` without a complete `name: value`
    | BlockEndWithoutBeginning          // `}` outside a block

  /** A parse failure, at the offending token's line. */
  datatype ParseError = ParseError(kind: ErrorKind, line: int)

  /**
   * Everything the parse loop keeps: the selector names seen so far (never
   * cleared), the current property and value, the last selector marker, whether
   * a block is open, the committed stylesheet, the open block's declarations,
   * and the kind of the last non-whitespace token.
   */
  datatype State = State(
    rule: seq<string>,
    style: string,
    value: string,
    selector: string,
    isBlock: bool,
    css: Stylesheet,
    styles: StyleMap,
    prev: TokenType)

  /** The Go zero values: no names, no property, value or marker, no open block, nothing committed. */
  function Initial(): (s: State)
    ensures s.rule == [] && s.style == "" && s.value == "" && s.selector == ""
    ensures !s.isBlock && s.css == map[] && s.styles == map[] && s.prev == FirstToken
  {
    State([], "", "", "", false, map[], map[], FirstToken)
  }

  /** The result of consuming one token. */
  datatype StepResult = Next(st: State) | Fail(err: ParseError)

  /** How the parse ends: the last state reached and the error, if any, that stopped it. */
  datatype Outcome = Outcome(final: State, err: Option<ParseError>)

  /** The block's declarations with an earlier entry's missing properties copied in; the block wins. */
  function MergeOld(styles: StyleMap, earlier: StyleMap): (r: StyleMap)
    ensures r.Keys == styles.Keys + earlier.Keys
    ensures forall k :: k in styles ==> r[k] == styles[k]
    ensures forall k :: k in earlier && k !in styles ==> r[k] == earlier[k]
  {
    earlier + styles
  }

  /** Merges, name after name, each name's earlier entry into the block's declarations. */
  function MergeNames(styles: StyleMap, css: Stylesheet, names: seq<string>): (r: StyleMap)
    decreases |names|
  {
    if names == [] then styles
    else
      var merged := if names[0] in css then MergeOld(styles, css[names[0]]) else styles;
      MergeNames(merged, css, names[1..])
  }

  /** Binds every name to the one map m. */
  function BindNames(css: Stylesheet, names: seq<string>, m: StyleMap): (r: Stylesheet)
    decreases |names|
  {
    if names == [] then css
    else BindNames(css[names[0] := m], names[1..], m)
  }

  /** The kind of the token a value follows decides what the value is. */
  function StepValue(st: State, e: TokenEntry): (r: StepResult)
    ensures r.Fail? <==> st.prev == RuleName
    ensures r.Fail? ==> r.err == ParseError(InvalidSyntax, e.token.line)
    ensures r.Next? ==> r.st.prev == Value && st.rule <= r.st.rule
    ensures r.Next? ==> r.st.css == st.css && r.st.styles == st.styles && r.st.isBlock == st.isBlock
    ensures st.prev in {FirstToken, BlockEnd, Value, Selector} ==> r.Next? && r.st.style == st.style && r.st.value == st.value
    ensures st.prev in {FirstToken, BlockEnd, Value} ==> r.Next? && r.st.rule == st.rule + [e.value]
    ensures st.prev == Selector ==> r.Next? && r.st.rule == st.rule + [st.selector + e.value]
    ensures st.prev in {BlockStart, StatementEnd} ==> r.Next? && r.st.style == e.value && r.st.value == st.value && r.st.rule == st.rule
    ensures st.prev == StyleSeparator ==> r.Next? && r.st.value == e.value && r.st.style == st.style && r.st.rule == st.rule
    ensures r.Next? ==> r.st.selector == st.selector
  {
    match st.prev
    case FirstToken | BlockEnd => Next(st.(rule := st.rule + [e.value], prev := Value))
    case Selector => Next(st.(rule := st.rule + [st.selector + e.value], prev := Value))
    case BlockStart | StatementEnd => Next(st.(style := e.value, prev := Value))
    case StyleSeparator => Next(st.(value := e.value, prev := Value))
    case Value => Next(st.(rule := st.rule + [e.value], prev := Value))
    case RuleName => Fail(ParseError(InvalidSyntax, e.token.line))
  }

  /** Consumes one token: whitespace changes nothing, every other token is dispatched on its kind. */
  function Step(st: State, e: TokenEntry): (r: StepResult)
    ensures IsSpace(e) ==> r == Next(st)
    ensures r.Fail? ==> r.err.line == e.token.line
    ensures r.Next? && !IsSpace(e) ==> r.st.prev == EntryType(e)
    ensures r.Next? ==> st.rule <= r.st.rule
    ensures r.Next? && (IsSpace(e) || e.value != "}") ==> r.st.css == st.css
  {
    if IsSpace(e) then Next(st)
    else
      var typ := EntryType(e);
      match typ
      case Value => StepValue(st, e)
      case Selector => Next(st.(selector := e.value, prev := typ))
      case BlockStart =>
        if st.prev != Value then Fail(ParseError(MissingRuleIdentifier, e.token.line))
        else Next(st.(isBlock := true, prev := typ))
      case StatementEnd =>
        if st.prev != Value || st.style == "" || st.value == "" then
          Fail(ParseError(ExpectedStyleBeforeSemicolon, e.token.line))
        else Next(st.(styles := st.styles[st.style := st.value], prev := typ))
      case BlockEnd =>
        if !st.isBlock then Fail(ParseError(BlockEndWithoutBeginning, e.token.line))
        else
          var merged := MergeNames(st.styles, st.css, st.rule);
          Next(st.(css := BindNames(st.css, st.rule, merged), styles := map[],
                   style := "", value := "", isBlock := false, prev := typ))
      case _ => Next(st.(prev := typ))
  }

  /** Consumes the tokens front to back and stops at the first error. */
  function Run(st: State, q: seq<TokenEntry>): (r: Outcome)
    decreases |q|
  {
    if q == [] then Outcome(st, None)
    else
      match Step(st, q[0])
      case Fail(e) => Outcome(st, Some(e))
      case Next(st') => Run(st', q[1..])
  }

  /**
   * Copies into the block's declarations every property of an earlier entry
   * that the block does not declare. The keys are visited in an arbitrary
   * order, and the result does not depend on it.
   */
  method MergeStyles(styles: StyleMap, oldRule: StyleMap) returns (merged: StyleMap)
    ensures merged == MergeOld(styles, oldRule)
  {
    merged := styles;
    var pending := oldRule.Keys;
    while pending != {}
      invariant pending <= oldRule.Keys
      invariant merged.Keys == styles.Keys + (oldRule.Keys - pending)
      invariant forall k :: k in merged ==> merged[k] == if k in styles then styles[k] else oldRule[k]
      decreases pending
    {
      var style :| style in pending;
      if style !in merged {
        merged := merged[style := oldRule[style]];
      }
      pending := pending - {style};
    }
  }

  /**
   * The parse loop: removes the front token until the list is empty, and
   * returns the stylesheet committed so far together with the first error.
   */
  method Parse(l: seq<TokenEntry>) returns (css: Stylesheet, err: Option<ParseError>)
    ensures css == Run(Initial(), l).final.css
    ensures err == Run(Initial(), l).err
  {
    var rule: seq<string> := [];
    var style, value, selector := "", "", "";
    var isBlock := false;
    css := map[];
    var styles: StyleMap := map[];
    var prevToken := FirstToken;
    var q := l;
    while q != []
      invariant Run(State(rule, style, value, selector, isBlock, css, styles, prevToken), q) == Run(Initial(), l)
      decreases |q|
    {
      ghost var st := State(rule, style, value, selector, isBlock, css, styles, prevToken);
      var token := q[0];
      var typ := EntryType(token);
      q := q[1..];

      if token.token.kind == TokenS {
        continue;
      }

      match typ {
        case Value =>
          match prevToken {
            case FirstToken | BlockEnd =>
              rule := rule + [token.value];
            case Selector =>
              rule := rule + [selector + token.value];
            case BlockStart | StatementEnd =>
              style := token.value;
            case StyleSeparator =>
              value := token.value;
            case Value =>
              rule := rule + [token.value];
            case RuleName =>
              err := Some(ParseError(InvalidSyntax, token.token.line));
              return;
          }
        case Selector =>
          selector := token.value;
        case BlockStart =>
          if prevToken != Value {
            err := Some(ParseError(MissingRuleIdentifier, token.token.line));
            return;
          }
          isBlock := true;
        case StatementEnd =>
          if prevToken != Value || style == "" || value == "" {
            err := Some(ParseError(ExpectedStyleBeforeSemicolon, token.token.line));
            return;
          }
          styles := styles[style := value];
        case BlockEnd =>
          if !isBlock {
            err := Some(ParseError(BlockEndWithoutBeginning, token.token.line));
            return;
          }
          // Merge every name's earlier entry into the block's map ...
          var i := 0;
          while i < |rule|
            invariant 0 <= i <= |rule|
            invariant MergeNames(styles, css, rule[i..]) == MergeNames(st.styles, css, rule)
          {
            if rule[i] in css {
              styles := MergeStyles(styles, css[rule[i]]);
            }
            assert rule[i..][1..] == rule[i + 1..];
            i := i + 1;
          }
          // ... and bind every name to that one map.
          i := 0;
          while i < |rule|
            invariant 0 <= i <= |rule|
            invariant BindNames(css, rule[i..], styles) == BindNames(st.css, rule, styles)
          {
            css := css[rule[i] := styles];
            assert rule[i..][1..] == rule[i + 1..];
            i := i + 1;
          }
          styles := map[];
          style, value := "", "";
          isBlock := false;
        case _ =>
      }
      prevToken := EntryType(token);
      assert Step(st, token) == Next(State(rule, style, value, selector, isBlock, css, styles, prevToken));
    }
    err := None;
  }

  /** Parses the scanner's output: build the token list, then run the state machine over it. */
  method Unmarshal(scan: seq<Option<ScanToken>>) returns (css: Stylesheet, err: Option<ParseError>)
    ensures css == Run(Initial(), Scanned(scan)).final.css
    ensures err == Run(Initial(), Scanned(scan)).err
  {
    var l := BuildList(scan);
    css, err := Parse(l);
  }
}
