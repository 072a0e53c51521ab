/**
 * The blanking lexer of the panic-sites ratchet (`blank` of
 * scripts/panic_sites_attrs.py): comments and literal contents become spaces,
 * every offset and newline kept. `alnum` is the set of alphanumeric characters.
 */
module Blank {
  import opened Wrappers

  // ---- Tokens -----------------------------------------------------------

  /** A piece of Rust text as far as blanking tells it apart. */
  datatype Token =
    | Code(c: char)
    | LineComment(body: string)
    | BlockComment(body: string)
    | RawString(open: string, body: string, close: string)
    | StringLiteral(body: string, close: string)
    | CharLiteral(body: string)

  /** The token's own text. */
  function TextOf(t: Token): string {
    match t
    case Code(c) => [c]
    case LineComment(body) => body
    case BlockComment(body) => body
    case RawString(open, body, close) => open + body + close
    case StringLiteral(body, close) => "\"" + body + close
    case CharLiteral(body) => "'" + body + "'"
  }

  /** Which of its characters lie in a comment or inside a literal. */
  function MaskOf(t: Token): (m: seq<bool>)
    ensures |m| == |TextOf(t)|
  {
    match t
    case Code(_) => [false]
    case LineComment(body) => Run(|body|, true)
    case BlockComment(body) => Run(|body|, true)
    case RawString(open, body, close) => Run(|open|, false) + Run(|body|, true) + Run(|close|, false)
    case StringLiteral(body, close) => [false] + Run(|body|, true) + Run(|close|, false)
    case CharLiteral(body) => [false] + Run(|body|, true) + [false]
  }

  function Run(n: nat, b: bool): (r: seq<bool>)
    ensures |r| == n && forall i :: 0 <= i < n ==> r[i] == b
  {
    seq(n, _ => b)
  }

  function Texts(ts: seq<Token>): string {
    if ts == [] then [] else TextOf(ts[0]) + Texts(ts[1..])
  }

  function Masks(ts: seq<Token>): (m: seq<bool>)
    ensures |m| == |Texts(ts)|
  {
    if ts == [] then [] else MaskOf(ts[0]) + Masks(ts[1..])
  }

  // ---- Tokenising -------------------------------------------------------

  predicate Starts(s: string, prefix: string) { |prefix| <= |s| && s[..|prefix|] == prefix }

  /** The characters before the first newline. */
  function LineLength(s: string): (n: nat)
    ensures n <= |s| && (n < |s| ==> s[n] == '\n') && '\n' !in s[..n]
  {
    if s == [] || s[0] == '\n' then 0 else assert s[..1 + LineLength(s[1..])] == [s[0]] + s[1..][..LineLength(s[1..])]; 1 + LineLength(s[1..])
  }

  /** The length of what closes `depth` block comments, nested ones in between. */
  function BlockLength(s: string, depth: int): (n: nat)
    ensures n <= |s|
    decreases |s|
  {
    if s == [] then 0
    else if Starts(s, "/*") then 2 + BlockLength(s[2..], depth + 1)
    else if Starts(s, "*/") then (if depth == 1 then 2 else 2 + BlockLength(s[2..], depth - 1))
    else 1 + BlockLength(s[1..], depth)
  }

  function Hashes(s: string): (n: nat)
    ensures n <= |s| && forall i :: 0 <= i < n ==> s[i] == '#'
  {
    if s == [] || s[0] != '#' then 0 else 1 + Hashes(s[1..])
  }

  /** The hashes of a raw string opening at the head of `s` after `skip` prefix characters. */
  function RawAfter(s: string, skip: nat): Option<nat> {
    if skip < |s| && s[skip] == 'r' then
      var h := Hashes(s[skip + 1..]);
      if skip + 1 + h < |s| && s[skip + 1 + h] == '"' then Some(h) else None
    else None
  }

  /** A raw string's opening: the length of it and its number of hashes. */
  function RawOpening(s: string): (r: Option<(nat, nat)>)
    ensures r.Some? ==> 0 < r.value.0 <= |s|
  {
    var plain := RawAfter(s, 0);
    var marked := RawAfter(s, 1);
    if plain.Some? then Some((2 + plain.value, plain.value))
    else if s != [] && (s[0] == 'b' || s[0] == 'c') && marked.Some? then Some((3 + marked.value, marked.value))
    else None
  }

  predicate ClosesRaw(s: string, hashes: nat) {
    s != [] && s[0] == '"' && hashes <= Hashes(s[1..])
  }

  /** The characters before the first closing of a raw string of `hashes`. */
  function RawLength(s: string, hashes: nat): (n: nat)
    ensures n <= |s| && (n < |s| ==> n + 1 + hashes <= |s|)
  {
    if s == [] || ClosesRaw(s, hashes) then 0 else 1 + RawLength(s[1..], hashes)
  }

  /** The first closing closes, and none before it does. */
  lemma {:induction false} RawLengthIsFirst(s: string, hashes: nat, k: nat)
    requires k <= RawLength(s, hashes) && k < |s|
    ensures ClosesRaw(s[k..], hashes) <==> k == RawLength(s, hashes)
  {
    if k == 0 {
      assert s[0..] == s;
    } else {
      assert s[1..][k - 1..] == s[k..];
      RawLengthIsFirst(s[1..], hashes, k - 1);
    }
  }

  /** The characters before the quote that closes a string, escapes passed over. */
  function StringLength(s: string): (n: nat)
    ensures n <= |s| && (n < |s| ==> s[n] == '"')
    decreases |s|
  {
    if s == [] || s[0] == '"' then 0
    else if s[0] == '\\' then (if |s| == 1 then 1 else 2 + StringLength(s[2..]))
    else 1 + StringLength(s[1..])
  }

  predicate IsHex(c: char) { '0' <= c <= '9' || 'a' <= c <= 'f' || 'A' <= c <= 'F' }

  function HexDigits(s: string): (n: nat)
    ensures n <= |s|
  {
    if s == [] || !IsHex(s[0]) then 0 else 1 + HexDigits(s[1..])
  }

  /** The characters between the quotes of a char literal at the head of `s`; none when it is no literal. */
  function CharLength(s: string): (r: Option<nat>)
    ensures r.Some? ==> r.value + 2 <= |s| && s[0] == '\'' && s[r.value + 1] == '\''
  {
    if |s| < 3 || s[0] != '\'' then None
    else if s[1] == '\\' then
      var digits := if |s| >= 4 && s[3] == '{' then HexDigits(s[4..]) else 0;
      if |s| >= 6 && s[2] == 'x' && IsHex(s[3]) && IsHex(s[4]) && s[5] == '\'' then Some(4)
      else if s[2] == 'u' && 1 <= digits <= 6 && 5 + digits < |s| && s[4 + digits] == '}' && s[5 + digits] == '\''
      then Some(4 + digits)
      else if |s| >= 4 && s[2] != '\n' && s[3] == '\'' then Some(2)
      else None
    else if s[1] != '\'' && s[1] != '\n' && s[2] == '\'' then Some(1)
    else None
  }

  /** A raw string opens here: not in the middle of a word. */
  predicate OpensRaw(alnum: set<char>, prev: Option<char>, s: string) {
    RawOpening(s).Some? && (prev.None? || (prev.value !in alnum && prev.value != '_'))
  }

  /** The first token of a text that follows `prev`. */
  function FirstToken(alnum: set<char>, prev: Option<char>, s: string): (t: Token)
    requires s != []
    ensures 0 < |TextOf(t)| <= |s| && s[..|TextOf(t)|] == TextOf(t)
  {
    if Starts(s, "//") then LineToken(s)
    else if Starts(s, "/*") then BlockToken(s)
    else if OpensRaw(alnum, prev, s) then RawToken(s)
    else if s[0] == '"' then StringToken(s)
    else if CharLength(s).Some? then CharToken(s)
    else Code(s[0])
  }

  function LineToken(s: string): (t: Token)
    requires Starts(s, "//")
    ensures 0 < |TextOf(t)| <= |s| && s[..|TextOf(t)|] == TextOf(t)
  {
    assert s[0] == s[..2][0] == '/';
    LineComment(s[..LineLength(s)])
  }

  function BlockToken(s: string): (t: Token)
    requires Starts(s, "/*")
    ensures 0 < |TextOf(t)| <= |s| && s[..|TextOf(t)|] == TextOf(t)
  {
    BlockComment(s[..BlockLength(s, 0)])
  }

  function RawToken(s: string): (t: Token)
    requires RawOpening(s).Some?
    ensures 0 < |TextOf(t)| <= |s| && s[..|TextOf(t)|] == TextOf(t)
  {
    RawFrom(s, RawOpening(s).value.0, RawOpening(s).value.1)
  }

  /** The raw string whose opening takes `open` characters, `hashes` of them hashes. */
  function RawFrom(s: string, open: nat, hashes: nat): (t: Token)
    requires 0 < open <= |s|
    ensures 0 < |TextOf(t)| <= |s| && s[..|TextOf(t)|] == TextOf(t)
  {
    var end := open + RawLength(s[open..], hashes);
    CutRaw(s, open, end, if end < |s| then end + 1 + hashes else end)
  }

  /** The raw string opened up to `a`, with its content up to `b` and its closing up to `c`. */
  function CutRaw(s: string, a: nat, b: nat, c: nat): (t: Token)
    requires 0 < a <= b <= c <= |s|
    ensures |TextOf(t)| == c && s[..c] == TextOf(t)
  {
    assert s[..c] == s[..a] + s[a..b] + s[b..c];
    RawString(s[..a], s[a..b], s[b..c])
  }

  function StringToken(s: string): (t: Token)
    requires s != [] && s[0] == '"'
    ensures 0 < |TextOf(t)| <= |s| && s[..|TextOf(t)|] == TextOf(t)
  {
    var body := StringLength(s[1..]);
    var close := if 1 + body < |s| then 1 else 0;
    assert s[..1 + body + close] == [s[0]] + s[1..1 + body] + s[1 + body..1 + body + close];
    StringLiteral(s[1..1 + body], s[1 + body..1 + body + close])
  }

  function CharToken(s: string): (t: Token)
    requires CharLength(s).Some?
    ensures 0 < |TextOf(t)| <= |s| && s[..|TextOf(t)|] == TextOf(t)
  {
    var body := CharLength(s).value;
    assert s[..2 + body] == [s[0]] + s[1..1 + body] + [s[1 + body]];
    CharLiteral(s[1..1 + body])
  }

  /** The tokens of a text that follows `prev`. */
  function Tokens(alnum: set<char>, prev: Option<char>, s: string): seq<Token>
    decreases |s|
  {
    if s == [] then []
    else
      var t := FirstToken(alnum, prev, s);
      var n := |TextOf(t)|;
      [t] + Tokens(alnum, Some(s[n - 1]), s[n..])
  }

  /** The tokens are the text, whole and in order. */
  lemma {:induction false} TokensAreTheText(alnum: set<char>, prev: Option<char>, s: string)
    ensures Texts(Tokens(alnum, prev, s)) == s
    decreases |s|
  {
    if s != [] {
      var t := FirstToken(alnum, prev, s);
      var n := |TextOf(t)|;
      TokensAreTheText(alnum, Some(s[n - 1]), s[n..]);
      JoinText(t, Tokens(alnum, Some(s[n - 1]), s[n..]), s);
    }
  }

  lemma JoinText(t: Token, rest: seq<Token>, s: string)
    requires |TextOf(t)| <= |s| && s[..|TextOf(t)|] == TextOf(t) && Texts(rest) == s[|TextOf(t)|..]
    ensures Texts([t] + rest) == s
  {
  }

  // ---- Blanking ---------------------------------------------------------

  /** A text with every masked character but newlines a space. */
  function Blanking(s: string, mask: seq<bool>): (r: string)
    requires |mask| == |s|
    ensures |r| == |s|
    ensures forall k :: 0 <= k < |s| ==> r[k] == if mask[k] && s[k] != '\n' then ' ' else s[k]
  {
    seq(|s|, k requires 0 <= k < |s| => if mask[k] && s[k] != '\n' then ' ' else s[k])
  }

  /** Tokens with their comments and literal contents blanked. */
  function Blanked(ts: seq<Token>): (r: string)
    ensures |r| == |Texts(ts)|
  {
    if ts == [] then [] else Blanking(TextOf(ts[0]), MaskOf(ts[0])) + Blanked(ts[1..])
  }

  /** Blanking token by token is blanking the whole text under the whole mask. */
  lemma {:induction false} BlankedAt(ts: seq<Token>, k: nat)
    requires k < |Texts(ts)|
    ensures Blanked(ts)[k] == if Masks(ts)[k] && Texts(ts)[k] != '\n' then ' ' else Texts(ts)[k]
  {
    if k >= |TextOf(ts[0])| {
      BlankedAt(ts[1..], k - |TextOf(ts[0])|);
    }
  }

  function Before(s: string, i: nat): Option<char>
    requires i <= |s|
  {
    if i == 0 then None else Some(s[i - 1])
  }

  /** Blank the characters of `out` from `a` up to `b`. */
  method Fill(out: array<char>, a: nat, b: nat)
    requires a <= b <= out.Length
    modifies out
    ensures forall k :: 0 <= k < out.Length ==>
      out[k] == if a <= k < b && old(out[k]) != '\n' then ' ' else old(out[k])
  {
    for k := a to b
      invariant forall i :: 0 <= i < out.Length ==>
        out[i] == if a <= i < k && old(out[i]) != '\n' then ' ' else old(out[i])
    {
      if out[k] != '\n' {
        out[k] := ' ';
      }
    }
  }

  /**
   * What the lexer has done by `i`: everything before is blanked, everything
   * from there is `ahead` as it was, to become `blankedAhead`.
   */
  ghost predicate BlankedTo(text: string, whole: string, ahead: string, blankedAhead: string, out: seq<char>, i: nat) {
    && |out| == |text| && i <= |text|
    && ahead == text[i..] && out[i..] == text[i..]
    && whole == out[..i] + blankedAhead
  }

  /** The token `t` at `i` ends at `next` and is blanked from `a` up to `b`. */
  ghost predicate Spans(t: Token, i: nat, a: nat, b: nat, next: nat) {
    && next == i + |TextOf(t)|
    && i <= a <= b <= next
    && Masked(MaskOf(t), i, a, b)
  }

  /** A mask at `i` covers just what lies from `a` up to `b`. */
  ghost predicate Masked(mask: seq<bool>, i: nat, a: nat, b: nat) {
    forall k :: 0 <= k < |mask| ==> mask[k] == (a <= i + k < b)
  }

  /** `out` is `was` blanked from `a` up to `b`. */
  ghost predicate Filled(was: seq<char>, out: seq<char>, a: nat, b: nat) {
    |out| == |was| && forall k :: 0 <= k < |was| ==> out[k] == if a <= k < b && was[k] != '\n' then ' ' else was[k]
  }

  /** Blanking the next token where its mask says moves the lexer past it. */
  lemma NextToken(text: string, whole: string, t: Token, rest: string, restBlanked: string, was: seq<char>, out: seq<char>,
                  i: nat, a: nat, b: nat, next: nat)
    requires BlankedTo(text, whole, TextOf(t) + rest, Blanking(TextOf(t), MaskOf(t)) + restBlanked, was, i)
    requires Filled(was, out, a, b) && Spans(t, i, a, b, next)
    ensures BlankedTo(text, whole, rest, restBlanked, out, next)
  {
  }

  /** The text blanked: lengths, newlines and code kept, comments and literal contents spaces. */
  method BlankText(text: string, alnum: set<char>) returns (blanked: string)
    ensures blanked == Blanked(Tokens(alnum, None, text))
  {
    var out := new char[|text|](k requires 0 <= k < |text| => text[k]);
    assert out[..] == text;
    var i := 0;
    ghost var whole, ts := Blanked(Tokens(alnum, None, text)), Tokens(alnum, None, text);
    TokensAreTheText(alnum, None, text);
    while i < |text|
      invariant i <= |text| && BlankedTo(text, whole, Texts(ts), Blanked(ts), out[..], i)
      invariant AreTokens(alnum, text, i, ts)
    {
      i, ts := BlankOne(text, alnum, out, i, whole, ts);
    }
    assert out[..i] == out[..];
    blanked := out[..];
  }

  /** `ts` are the tokens of the text from `i` on. */
  ghost predicate AreTokens(alnum: set<char>, text: string, i: nat, ts: seq<Token>) {
    i <= |text| && ts == Tokens(alnum, Before(text, i), text[i..])
  }

  /** Blank the token at `i`. */
  method BlankOne(text: string, alnum: set<char>, out: array<char>, i: nat, ghost whole: string, ghost ts: seq<Token>)
    returns (next: nat, ghost rest: seq<Token>)
    requires i < |text| && AreTokens(alnum, text, i, ts) && BlankedTo(text, whole, Texts(ts), Blanked(ts), out[..], i)
    modifies out
    ensures i < next && BlankedTo(text, whole, Texts(rest), Blanked(rest), out[..], next) && AreTokens(alnum, text, next, rest)
  {
    ghost var was := out[..];
    var a, b;
    a, b, next := Span(text, alnum, i);
    Fill(out, a, b);
    TokensStep(alnum, text, i, a, b, next);
    rest := ts[1..];
    NextToken(text, whole, ts[0], Texts(rest), Blanked(rest), was, out[..], i, a, b, next);
  }

  /** The tokens from `i` are the one there and those from where it ends. */
  lemma {:induction false} TokensStep(alnum: set<char>, text: string, i: nat, a: nat, b: nat, next: nat)
    requires i < next <= |text| && Spans(FirstToken(alnum, Before(text, i), text[i..]), i, a, b, next)
    ensures
      var ts := Tokens(alnum, Before(text, i), text[i..]);
      ts != [] && Spans(ts[0], i, a, b, next) && ts[1..] == Tokens(alnum, Before(text, next), text[next..])
  {
    var s := text[i..];
    assert s[next - i..] == text[next..] && s[next - i - 1] == text[next - 1];
  }

  /** Where the token at `i` is blanked, and where the next one starts. */
  method Span(text: string, alnum: set<char>, i: nat) returns (a: nat, b: nat, next: nat)
    requires i < |text|
    ensures i < next <= |text| && Spans(FirstToken(alnum, Before(text, i), text[i..]), i, a, b, next)
  {
    var s := text[i..];
    if Starts(s, "//") {
      a, b, next := LineSpan(text, i);
    } else if Starts(s, "/*") {
      a, b, next := BlockSpan(text, i);
    } else if OpensRaw(alnum, Before(text, i), s) {
      a, b, next := RawSpan(text, i);
    } else if s[0] == '"' {
      a, b, next := StringSpan(text, i);
    } else if CharLength(s).Some? {
      a, b, next := CharSpan(text, i);
    } else {
      a, b, next := i, i, i + 1;
    }
  }

  method LineSpan(text: string, i: nat) returns (a: nat, b: nat, next: nat)
    requires i < |text| && Starts(text[i..], "//")
    ensures i < next <= |text| && Spans(LineToken(text[i..]), i, a, b, next)
  {
    next := FindNewline(text, i);
    a, b := i, next;
  }

  method BlockSpan(text: string, i: nat) returns (a: nat, b: nat, next: nat)
    requires i < |text| && Starts(text[i..], "/*")
    ensures i < next <= |text| && Spans(BlockToken(text[i..]), i, a, b, next)
  {
    next := BlockEnd(text, i);
    a, b := i, next;
  }

  method RawSpan(text: string, i: nat) returns (a: nat, b: nat, next: nat)
    requires i < |text| && RawOpening(text[i..]).Some?
    ensures i < next <= |text| && Spans(RawToken(text[i..]), i, a, b, next)
  {
    var opening := RawOpening(text[i..]).value;
    a := i + opening.0;
    b := FindRawClose(text, a, opening.1);
    next := if b < |text| then b + 1 + opening.1 else b;
    RawFromSpans(text, i, opening.0, opening.1, b, next);
  }

  lemma RawFromSpans(text: string, i: nat, open: nat, hashes: nat, b: nat, next: nat)
    requires i < |text| && 0 < open <= |text| - i && b == i + open + RawLength(text[i + open..], hashes)
    requires next == if b < |text| then b + 1 + hashes else b
    ensures i < next <= |text| && Spans(RawFrom(text[i..], open, hashes), i, i + open, b, next)
  {
  }

  method StringSpan(text: string, i: nat) returns (a: nat, b: nat, next: nat)
    requires i < |text| && text[i] == '"'
    ensures i < next <= |text| && Spans(StringToken(text[i..]), i, a, b, next)
  {
    ghost var s := text[i..];
    assert text[i + 1..] == s[1..];
    a := i + 1;
    b := StringEnd(text, a);
    next := if b < |text| then b + 1 else b;
  }

  method CharSpan(text: string, i: nat) returns (a: nat, b: nat, next: nat)
    requires i < |text| && CharLength(text[i..]).Some?
    ensures i < next <= |text| && Spans(CharToken(text[i..]), i, a, b, next)
  {
    var body := CharLength(text[i..]).value;
    a, b, next := i + 1, i + 1 + body, i + 2 + body;
  }

  method FindNewline(text: string, i: nat) returns (j: nat)
    requires i <= |text|
    ensures j == i + LineLength(text[i..])
  {
    j := i;
    while j < |text| && text[j] != '\n'
      invariant i <= j <= |text| && i + LineLength(text[i..]) == j + LineLength(text[j..])
    {
      assert text[j..][1..] == text[j + 1..];
      j := j + 1;
    }
  }

  /** The end of the block comment at `i`, nested ones counted. */
  method BlockEnd(text: string, i: nat) returns (j: nat)
    requires i <= |text|
    ensures j == i + BlockLength(text[i..], 0)
  {
    var depth := 0;
    j := i;
    ghost var end := i + BlockLength(text[i..], 0);
    while j < |text|
      invariant i <= j <= |text| && end == j + BlockLength(text[j..], depth)
      decreases |text| - j
    {
      var done;
      j, depth, done := BlockStep(text, j, depth);
      if done {
        return;
      }
    }
  }

  /** One step of the scan: past a delimiter or a character; done past the closing of the comment. */
  method BlockStep(text: string, j: nat, depth: int) returns (next: nat, deeper: int, done: bool)
    requires j < |text|
    ensures j < next <= |text|
    ensures BlockLength(text[j..], depth) == next - j + if done then 0 else BlockLength(text[next..], deeper)
  {
    done := false;
    if StartsAt(text, j, "/*") {
      BlockOpens(text, j, depth);
      next, deeper := j + 2, depth + 1;
    } else if StartsAt(text, j, "*/") {
      BlockCloses(text, j, depth);
      next, deeper := j + 2, depth - 1;
      done := deeper == 0;
    } else {
      BlockGoesOn(text, j, depth);
      next, deeper := j + 1, depth;
    }
  }

  lemma {:induction false} BlockOpens(text: string, j: nat, depth: int)
    requires j < |text| && StartsAt(text, j, "/*")
    ensures BlockLength(text[j..], depth) == 2 + BlockLength(text[j + 2..], depth + 1)
  {
    assert text[j..][2..] == text[j + 2..];
  }

  lemma {:induction false} BlockCloses(text: string, j: nat, depth: int)
    requires j < |text| && StartsAt(text, j, "*/")
    ensures BlockLength(text[j..], depth) == if depth == 1 then 2 else 2 + BlockLength(text[j + 2..], depth - 1)
  {
    assert text[j..][2..] == text[j + 2..];
  }

  lemma {:induction false} BlockGoesOn(text: string, j: nat, depth: int)
    requires j < |text| && !StartsAt(text, j, "/*") && !StartsAt(text, j, "*/")
    ensures BlockLength(text[j..], depth) == 1 + BlockLength(text[j + 1..], depth)
  {
    assert text[j..][1..] == text[j + 1..];
  }

  /** Two characters of the text at `j`. */
  predicate StartsAt(text: string, j: nat, two: string)
    requires j <= |text| && |two| == 2
    ensures StartsAt(text, j, two) <==> Starts(text[j..], two)
  {
    assert j + 2 <= |text| ==> text[j..][..2] == [text[j], text[j + 1]];
    j + 2 <= |text| && text[j] == two[0] && text[j + 1] == two[1]
  }

  method FindRawClose(text: string, i: nat, hashes: nat) returns (j: nat)
    requires i <= |text|
    ensures j == i + RawLength(text[i..], hashes)
  {
    j := i;
    while j < |text| && !ClosesRaw(text[j..], hashes)
      invariant i <= j <= |text| && i + RawLength(text[i..], hashes) == j + RawLength(text[j..], hashes)
    {
      assert text[j..][1..] == text[j + 1..];
      j := j + 1;
    }
  }

  method StringEnd(text: string, i: nat) returns (j: nat)
    requires i <= |text|
    ensures j == i + StringLength(text[i..])
  {
    j := i;
    while j < |text| && text[j] != '"'
      invariant i <= j <= |text| && i + StringLength(text[i..]) == j + StringLength(text[j..])
      decreases |text| - j
    {
      assert text[j..][1..] == text[j + 1..];
      if text[j] == '\\' && j + 1 < |text| {
        assert text[j..][2..] == text[j + 2..];
        j := j + 2;
      } else {
        j := j + 1;
      }
    }
  }

  // ---- What blanking keeps ----------------------------------------------

  /**
   * Blanking keeps the length and every newline, and turns to a space exactly
   * the characters the tokens put in a comment or inside a literal.
   */
  lemma {:induction false} BlankedExactly(alnum: set<char>, text: string)
    ensures
      var tokens := Tokens(alnum, None, text);
      && Texts(tokens) == text && |Blanked(tokens)| == |text| && |Masks(tokens)| == |text|
      && (forall k :: 0 <= k < |text| ==> (Blanked(tokens)[k] == '\n' <==> text[k] == '\n'))
      && (forall k :: 0 <= k < |text| ==>
            Blanked(tokens)[k] == if Masks(tokens)[k] && text[k] != '\n' then ' ' else text[k])
  {
    TokensAreTheText(alnum, None, text);
    var tokens := Tokens(alnum, None, text);
    forall k | 0 <= k < |text|
      ensures Blanked(tokens)[k] == if Masks(tokens)[k] && text[k] != '\n' then ' ' else text[k]
    {
      BlankedAt(tokens, k);
    }
  }
}
