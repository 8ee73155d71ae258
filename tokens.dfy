/** The conventional optional value, used for the scanner's nil token and for the parser's error. */
module Wrappers {
  datatype Option<+T> = None | Some(value: T)
}

/**
 * Token kinds of the stylesheet parser, the classifier that maps a token's
 * literal text to its kind, the selector classification of a rule, and the
 * builder that drains the scanner into the parser's token list.
 */
module Tokens {
  import opened Wrappers

  /**
   * The parser's closed set of token kinds. FirstToken is only ever the
   * initial "previous kind" of the parser; RuleName is declared but no text
   * is classified as it.
   */
  datatype TokenType =
    | FirstToken
    | BlockStart
    | BlockEnd
    | RuleName
    | Value
    | Selector
    | StyleSeparator
    | StatementEnd

  /** The texts that have a kind of their own; every other text is a value. */
  const Punctuation: set<string> := {"{", "}", ":", ";", ".", "#"}

  /** Classifies a token by its literal text. Total: unknown text is a value. */
  function NewTokenType(text: string): (t: TokenType)
    ensures t != FirstToken && t != RuleName
    ensures t == BlockStart <==> text == "{"
    ensures t == BlockEnd <==> text == "}"
    ensures t == StyleSeparator <==> text == ":"
    ensures t == StatementEnd <==> text == ";"
    ensures t == Selector <==> text == "." || text == "#"
    ensures t == Value <==> text !in Punctuation
  {
    if text == "{" then BlockStart
    else if text == "}" then BlockEnd
    else if text == ":" then StyleSeparator
    else if text == ";" then StatementEnd
    else if text == "." || text == "#" then Selector
    else Value
  }

  /** The printable name of a kind; kinds without a name of their own print as a value. */
  function TypeName(t: TokenType): (name: string)
    ensures name == "VALUE" <==> t in {FirstToken, RuleName, Value}
    ensures |name| > 0
  {
    match t
    case BlockStart => "BLOCK_START"
    case BlockEnd => "BLOCK_END"
    case StyleSeparator => "STYLE_SEPARATOR"
    case StatementEnd => "STATEMENT_END"
    case Selector => "SELECTOR"
    case _ => "VALUE"
  }

  /** On the kinds the classifier produces, the printable name tells the kinds apart. */
  lemma TypeNameSeparatesKinds(a: string, b: string)
    ensures TypeName(NewTokenType(a)) == TypeName(NewTokenType(b)) <==> NewTokenType(a) == NewTokenType(b)
  {
    var ta, tb := NewTokenType(a), NewTokenType(b);
    if ta != tb {
      assert |TypeName(ta)| != |TypeName(tb)|;
    }
  }

  /** Prefix test on strings. */
  predicate HasPrefix(s: string, prefix: string) {
    |prefix| <= |s| && s[..|prefix|] == prefix
  }

  /** The kind of a selector: a class, an id or a tag. The empty selector is a tag. */
  function RuleType(rule: string): (kind: string)
    ensures kind == "class" <==> |rule| > 0 && rule[0] == '.'
    ensures kind == "id" <==> |rule| > 0 && rule[0] == '#'
    ensures kind == "tag" <==> |rule| == 0 || (rule[0] != '.' && rule[0] != '#')
  {
    if HasPrefix(rule, ".") then "class"
    else if HasPrefix(rule, "#") then "id"
    else "tag"
  }

  /** The scanner's token kinds that matter here: whitespace, end of input, and everything else. */
  datatype ScanKind = TokenS | TokenEOF | TokenOther

  /** A token as the external scanner yields it. */
  datatype ScanToken = ScanToken(kind: ScanKind, value: string, line: int)

  /** An entry of the parser's token list: the token's text beside the scanner token itself. */
  datatype TokenEntry = TokenEntry(value: string, token: ScanToken)

  /** The kind of a list entry, classified by its text. */
  function EntryType(e: TokenEntry): (t: TokenType)
    ensures t != FirstToken && t != RuleName
    ensures t == NewTokenType(e.value)
  {
    NewTokenType(e.value)
  }

  /** Whether an entry is a whitespace token, which the parser skips. */
  predicate IsSpace(e: TokenEntry) {
    e.token.kind == TokenS
  }

  /**
   * One pull from the scanner: a nil token or the end-of-input token ends the
   * list (None); any other token, whitespace included, becomes an entry.
   */
  function NextEntry(t: Option<ScanToken>): (r: Option<TokenEntry>)
    ensures r.None? <==> t.None? || t.value.kind == TokenEOF
    ensures r.Some? ==> r.value.token == t.value && r.value.value == t.value.value
  {
    match t
    case None => None
    case Some(tok) => if tok.kind == TokenEOF then None else Some(TokenEntry(tok.value, tok))
  }

  /**
   * The token list built from the scanner's output: every token, in order, up
   * to the first nil or end-of-input token (or the end of the scanner's output).
   */
  function Scanned(scan: seq<Option<ScanToken>>): (l: seq<TokenEntry>)
    ensures |l| <= |scan|
    ensures forall i :: 0 <= i < |l| ==> NextEntry(scan[i]) == Some(l[i])
    ensures |l| < |scan| ==> NextEntry(scan[|l|]).None?
  {
    if scan == [] then []
    else match NextEntry(scan[0])
      case None => []
      case Some(e) => [e] + Scanned(scan[1..])
  }

  /** One pull at position i: either the list ends there or its entry starts the rest. */
  lemma ScannedFrom(scan: seq<Option<ScanToken>>, i: nat)
    requires i < |scan|
    ensures NextEntry(scan[i]).None? ==> Scanned(scan[i..]) == []
    ensures NextEntry(scan[i]).Some? ==> Scanned(scan[i..]) == [NextEntry(scan[i]).value] + Scanned(scan[i + 1..])
  {
    assert scan[i..][0] == scan[i] && scan[i..][1..] == scan[i + 1..];
  }

  /** Drains the scanner into a list, pushing each entry at the back until the scanner ends. */
  method BuildList(scan: seq<Option<ScanToken>>) returns (l: seq<TokenEntry>)
    ensures l == Scanned(scan)
  {
    l := [];
    var i := 0;
    while i < |scan|
      invariant 0 <= i <= |scan|
      invariant Scanned(scan) == l + Scanned(scan[i..])
    {
      var entry := NextEntry(scan[i]);
      ScannedFrom(scan, i);
      if entry.None? {
        break;
      }
      l := l + [entry.value];
      i := i + 1;
    }
  }
}
