/**
 * What the blanking lexer's char literals and raw strings are, which token
 * stands where, and what of each is blanked, said without its scan.
 */
module LiteralGrammar {
  import opened Wrappers
  import opened Blank
  import opened TokenGrammar

  // ---- Char literals ----------------------------------------------------

  /** What stands between the quotes of a char literal. */
  datatype CharBody = One(c: char) | Escape(c: char) | Hex(a: char, b: char) | Unicode(digits: string)

  /** A hexadecimal digit, by its code. */
  predicate Digit(c: char) { 48 <= c as int <= 57 || 65 <= c as int <= 70 || 97 <= c as int <= 102 }

  predicate Legal(body: CharBody) {
    match body
    case One(c) => c != '\'' && c != '\\' && c != '\n'
    case Escape(c) => c != '\n'
    case Hex(a, b) => Digit(a) && Digit(b)
    case Unicode(digits) => 1 <= |digits| <= 6 && forall k :: 0 <= k < |digits| ==> Digit(digits[k])
  }

  function BodyText(body: CharBody): string {
    match body
    case One(c) => [c]
    case Escape(c) => ['\\', c]
    case Hex(a, b) => ['\\', 'x', a, b]
    case Unicode(digits) => ['\\', 'u', '{'] + digits + ['}']
  }

  /** The text starts with the char literal of `body`. */
  ghost predicate StartsLiteral(s: string, body: CharBody) {
    Legal(body) && Starts(s, ['\''] + BodyText(body) + ['\''])
  }

  lemma HexIsDigit(c: char)
    ensures IsHex(c) <==> Digit(c)
  {
  }

  /** The digits read are digits, and what follows them is none. */
  lemma {:induction false} DigitsRead(s: string)
    ensures forall k :: 0 <= k < HexDigits(s) ==> Digit(s[k])
    ensures HexDigits(s) < |s| ==> !Digit(s[HexDigits(s)])
  {
    if s != [] {
      HexIsDigit(s[0]);
      if IsHex(s[0]) { DigitsRead(s[1..]); }
    }
  }

  lemma {:induction false} DigitsCounted(s: string, n: nat)
    requires n < |s| && !Digit(s[n]) && forall k :: 0 <= k < n ==> Digit(s[k])
    ensures HexDigits(s) == n
  {
    HexIsDigit(s[0]);
    if n > 0 {
      DigitsCounted(s[1..], n - 1);
    }
  }

  /** Texts that agree on every character of `whole` start with it, and the other way round. */
  lemma {:induction false} StartsByChar(s: string, whole: string)
    requires |whole| <= |s|
    ensures Starts(s, whole) <==> forall k :: 0 <= k < |whole| ==> s[k] == whole[k]
  {
    if Starts(s, whole) {
      forall k | 0 <= k < |whole| ensures s[k] == whole[k] { assert s[..|whole|][k] == s[k]; }
    }
  }

  /** The whole literal, by character. */
  lemma {:induction false} UnicodeText(digits: string, k: nat)
    ensures
      var whole := ['\''] + BodyText(Unicode(digits)) + ['\''];
      && |whole| == |digits| + 6 && whole[0] == '\'' && whole[1] == '\\' && whole[2] == 'u' && whole[3] == '{'
      && whole[4 + |digits|] == '}' && whole[5 + |digits|] == '\'' && (k < |digits| ==> whole[4 + k] == digits[k])
  {
    var whole := ['\''] + BodyText(Unicode(digits)) + ['\''];
    assert whole == ['\'', '\\', 'u', '{'] + digits + ['}', '\''];
  }

  /** The literal the scan takes is one. */
  lemma {:induction false} LiteralTaken(s: string) returns (body: CharBody)
    requires CharLength(s).Some?
    ensures StartsLiteral(s, body) && |BodyText(body)| == CharLength(s).value
  {
    var n := CharLength(s).value;
    if s[1] != '\\' {
      body := One(s[1]);
      StartsByChar(s, ['\''] + BodyText(body) + ['\'']);
    } else if |s| >= 6 && s[2] == 'x' && IsHex(s[3]) && IsHex(s[4]) && s[5] == '\'' {
      HexIsDigit(s[3]);
      HexIsDigit(s[4]);
      body := Hex(s[3], s[4]);
      StartsByChar(s, ['\''] + BodyText(body) + ['\'']);
    } else if n == 2 {
      body := Escape(s[2]);
      StartsByChar(s, ['\''] + BodyText(body) + ['\'']);
    } else {
      body := UnicodeTaken(s, n - 4);
    }
  }

  lemma {:induction false} UnicodeTaken(s: string, n: nat) returns (body: CharBody)
    requires 5 + n < |s| && 1 <= n <= 6 && n == HexDigits(s[4..])
    requires s[0] == '\'' && s[1] == '\\' && s[2] == 'u' && s[3] == '{' && s[4 + n] == '}' && s[5 + n] == '\''
    ensures StartsLiteral(s, body) && |BodyText(body)| == n + 4
  {
    var digits := s[4..4 + n];
    body := Unicode(digits);
    DigitsRead(s[4..]);
    forall k | 0 <= k < n ensures Digit(digits[k]) { assert digits[k] == s[4..][k]; }
    var whole := ['\''] + BodyText(body) + ['\''];
    UnicodeText(digits, n);
    forall k | 0 <= k < |whole| ensures s[k] == whole[k] {
      if 4 <= k < 4 + n { UnicodeText(digits, k - 4); }
    }
    StartsByChar(s, whole);
  }

  /** Every literal is taken, whole. */
  lemma {:induction false} LiteralIsTaken(s: string, body: CharBody)
    requires StartsLiteral(s, body)
    ensures CharLength(s) == Some(|BodyText(body)|)
  {
    match body
    case One(c) => OneIsTaken(s, c);
    case Escape(c) => EscapeIsTaken(s, c);
    case Hex(a, b) => HexIsTaken(s, a, b);
    case Unicode(digits) => UnicodeAt(s, digits);
  }

  lemma {:induction false} OneIsTaken(s: string, c: char)
    requires StartsLiteral(s, One(c))
    ensures CharLength(s) == Some(1)
  {
    StartsByChar(s, ['\'', c, '\'']);
  }

  lemma {:induction false} EscapeIsTaken(s: string, c: char)
    requires StartsLiteral(s, Escape(c))
    ensures CharLength(s) == Some(2)
  {
    assert ['\''] + BodyText(Escape(c)) + ['\''] == ['\'', '\\', c, '\''];
    StartsByChar(s, ['\'', '\\', c, '\'']);
  }

  lemma {:induction false} HexIsTaken(s: string, a: char, b: char)
    requires StartsLiteral(s, Hex(a, b))
    ensures CharLength(s) == Some(4)
  {
    assert ['\''] + BodyText(Hex(a, b)) + ['\''] == ['\'', '\\', 'x', a, b, '\''];
    StartsByChar(s, ['\'', '\\', 'x', a, b, '\'']);
    HexIsDigit(a);
    HexIsDigit(b);
  }

  lemma {:induction false} UnicodeAt(s: string, digits: string)
    requires StartsLiteral(s, Unicode(digits))
    ensures CharLength(s) == Some(|digits| + 4)
  {
    UnicodeDigits(s, digits);
  }

  lemma {:induction false} UnicodeDigits(s: string, digits: string)
    requires StartsLiteral(s, Unicode(digits))
    ensures HexDigits(s[4..]) == |digits| && |s| > 5 + |digits|
    ensures s[0] == '\'' && s[1] == '\\' && s[2] == 'u' && s[3] == '{' && s[4 + |digits|] == '}' && s[5 + |digits|] == '\''
  {
    var n, whole := |digits|, ['\''] + BodyText(Unicode(digits)) + ['\''];
    UnicodeText(digits, n);
    StartsByChar(s, whole);
    forall k | 0 <= k < n ensures Digit(s[4..][k]) {
      UnicodeText(digits, k);
      assert s[4..][k] == s[4 + k] == whole[4 + k];
    }
    assert s[4..][n] == s[4 + n] == whole[4 + n];
    DigitsCounted(s[4..], n);
  }

  /** A char literal is taken exactly where one stands, and its content is what stands between the quotes. */
  lemma {:induction false} CharLiterals(s: string, n: nat)
    ensures CharLength(s) == Some(n) <==> exists body :: StartsLiteral(s, body) && |BodyText(body)| == n
  {
    if CharLength(s) == Some(n) {
      var body := LiteralTaken(s);
    }
    if body :| StartsLiteral(s, body) && |BodyText(body)| == n {
      LiteralIsTaken(s, body);
    }
  }

  // ---- Raw strings ------------------------------------------------------

  function HashRun(n: nat): (r: string)
    ensures |r| == n && forall k :: 0 <= k < n ==> r[k] == '#'
  {
    seq(n, _ => '#')
  }

  /** The text starts with the opening of a raw string: a mark or none, `r`, hashes and a quote. */
  ghost predicate OpensWith(s: string, mark: string, hashes: nat) {
    (mark == "" || mark == "b" || mark == "c") && Starts(s, Opening(mark, hashes))
  }

  lemma {:induction false} HashesRead(s: string, n: nat)
    requires n < |s| && s[n] != '#' && forall k :: 0 <= k < n ==> s[k] == '#'
    ensures Hashes(s) == n
  {
    if n > 0 {
      HashesRead(s[1..], n - 1);
    }
  }

  lemma {:induction false} HashesAtLeast(s: string, n: nat)
    requires n <= |s| && forall k :: 0 <= k < n ==> s[k] == '#'
    ensures n <= Hashes(s)
  {
    if n > 0 {
      HashesAtLeast(s[1..], n - 1);
    }
  }

  /** The opening after a mark, by character. */
  function Opening(mark: string, hashes: nat): string { mark + ['r'] + HashRun(hashes) + ['"'] }

  lemma {:induction false} RawAfterReads(s: string, mark: string, hashes: nat)
    requires |mark| <= |s| && s[..|mark|] == mark && RawAfter(s, |mark|) == Some(hashes)
    ensures Starts(s, Opening(mark, hashes))
  {
    var m, whole := |mark|, Opening(mark, hashes);
    forall k | 0 <= k < |whole| ensures s[k] == whole[k] {
      if k < m {
        assert s[k] == s[..m][k];
      } else if m < k <= m + hashes {
        assert s[k] == s[m + 1..][k - m - 1];
      }
    }
    StartsByChar(s, whole);
  }

  lemma {:induction false} RawAfterIsRead(s: string, mark: string, hashes: nat)
    requires Starts(s, Opening(mark, hashes))
    ensures RawAfter(s, |mark|) == Some(hashes)
  {
    var m, whole := |mark|, Opening(mark, hashes);
    StartsByChar(s, whole);
    var t := s[m + 1..];
    forall k | 0 <= k < hashes ensures t[k] == '#' {
      assert t[k] == s[m + 1 + k] == whole[m + 1 + k];
    }
    assert t[hashes] == s[m + 1 + hashes] == whole[m + 1 + hashes];
    HashesRead(t, hashes);
  }

  /** A raw string opens exactly where an opening stands, taken whole. */
  lemma {:induction false} RawOpenings(s: string, length: nat, hashes: nat)
    ensures RawOpening(s) == Some((length, hashes)) <==> exists mark :: OpensWith(s, mark, hashes) && length == |mark| + 2 + hashes
  {
    if RawOpening(s) == Some((length, hashes)) {
      OpeningTaken(s, length, hashes);
    }
    if mark :| OpensWith(s, mark, hashes) && length == |mark| + 2 + hashes {
      OpeningIsTaken(s, mark, hashes);
    }
  }

  lemma {:induction false} OpeningTaken(s: string, length: nat, hashes: nat)
    requires RawOpening(s) == Some((length, hashes))
    ensures exists mark :: OpensWith(s, mark, hashes) && length == |mark| + 2 + hashes
  {
    if RawAfter(s, 0).Some? {
      RawAfterReads(s, "", hashes);
      assert OpensWith(s, "", hashes);
    } else {
      assert s[..1] == [s[0]];
      RawAfterReads(s, [s[0]], hashes);
      assert [s[0]] == "b" || [s[0]] == "c";
      assert OpensWith(s, [s[0]], hashes);
    }
  }

  lemma {:induction false} OpeningIsTaken(s: string, mark: string, hashes: nat)
    requires OpensWith(s, mark, hashes)
    ensures RawOpening(s) == Some((|mark| + 2 + hashes, hashes))
  {
    RawAfterIsRead(s, mark, hashes);
    StartsByChar(s, Opening(mark, hashes));
    if mark != "" {
      assert s[0] == mark[0];
    }
  }

  /** A raw string closes at a quote and as many hashes as it opened with. */
  lemma {:induction false} RawCloses(s: string, hashes: nat)
    ensures ClosesRaw(s, hashes) <==> Starts(s, ['"'] + HashRun(hashes))
  {
    var whole := ['"'] + HashRun(hashes);
    if ClosesRaw(s, hashes) {
      forall k | 0 <= k < |whole| ensures s[k] == whole[k] {
        if k > 0 { assert s[k] == s[1..][k - 1]; }
      }
      StartsByChar(s, whole);
    }
    if Starts(s, whole) {
      StartsByChar(s, whole);
      forall k | 0 <= k < hashes ensures s[1..][k] == '#' { assert s[1..][k] == s[1 + k] == whole[1 + k]; }
      HashesAtLeast(s[1..], hashes);
    }
  }

  // ---- Which token stands where -----------------------------------------

  /** The kind of the first token, by the text alone. */
  lemma {:induction false} TokenKinds(alnum: set<char>, prev: Option<char>, s: string)
    requires s != []
    ensures
      var t := FirstToken(alnum, prev, s);
      && (t.LineComment? <==> Starts(s, "//"))
      && (t.BlockComment? <==> Starts(s, "/*"))
      && (t.RawString? <==> (exists mark, hashes :: OpensWith(s, mark, hashes)) && (prev == None || (prev.value !in alnum && prev.value != '_')))
      && (t.StringLiteral? <==> s[0] == '"')
      && (t.CharLiteral? <==> exists body :: StartsLiteral(s, body))
  {
    RawSomewhere(s);
    LiteralSomewhere(s);
    assert Starts(s, "//") || Starts(s, "/*") ==> s[..2][0] == '/';
  }

  lemma {:induction false} RawSomewhere(s: string)
    ensures RawOpening(s).Some? <==> exists mark, hashes :: OpensWith(s, mark, hashes)
    ensures RawOpening(s).Some? ==> s[0] == 'r' || s[0] == 'b' || s[0] == 'c'
  {
    if RawOpening(s).Some? {
      OpeningTaken(s, RawOpening(s).value.0, RawOpening(s).value.1);
    }
    if mark, hashes :| OpensWith(s, mark, hashes) {
      OpeningIsTaken(s, mark, hashes);
    }
  }

  lemma {:induction false} LiteralSomewhere(s: string)
    ensures CharLength(s).Some? <==> exists body :: StartsLiteral(s, body)
  {
    if CharLength(s).Some? {
      var body := LiteralTaken(s);
    }
    if body :| StartsLiteral(s, body) {
      LiteralIsTaken(s, body);
    }
  }

  /** What of a token is blanked: a comment whole, a literal but for what opens and closes it, of code nothing. */
  lemma {:induction false} MaskIsContent(t: Token, k: nat)
    requires k < |TextOf(t)|
    ensures MaskOf(t)[k] <==>
      match t
      case Code(_) => false
      case LineComment(_) => true
      case BlockComment(_) => true
      case RawString(open, body, _) => |open| <= k < |open| + |body|
      case StringLiteral(body, _) => 1 <= k <= |body|
      case CharLiteral(body) => 1 <= k <= |body|
  {
  }

  // ---- What each token holds --------------------------------------------

  /** A line comment runs to the end of its line. */
  lemma {:induction false} LineParts(s: string)
    requires Starts(s, "//")
    ensures
      var body := TextOf(LineToken(s));
      '\n' !in body && |body| <= |s| && (|body| < |s| ==> s[|body|] == '\n')
  {
  }

  /** A raw string begins with its opening, taken whole. */
  lemma {:induction false} RawOpens(s: string) returns (mark: string, hashes: nat)
    requires RawOpening(s).Some?
    ensures OpensWith(s, mark, hashes) && RawOpening(s).value == (|mark| + 2 + hashes, hashes)
    ensures RawToken(s).RawString? && RawToken(s).open == Opening(mark, hashes)
  {
    var open := RawOpening(s).value.0;
    hashes := RawOpening(s).value.1;
    OpeningTaken(s, open, hashes);
    mark :| OpensWith(s, mark, hashes) && open == |mark| + 2 + hashes;
  }

  /** Inside it nothing closes it, and what follows is a quote and as many hashes, or the end of the text. */
  lemma {:induction false} RawParts(s: string, k: nat)
    requires RawOpening(s).Some?
    ensures
      var t, close := RawToken(s), ['"'] + HashRun(RawOpening(s).value.1);
      && t.RawString? && |t.open| + |t.body| <= |s| && (k < |t.body| ==> !Starts(s[|t.open| + k..], close))
      && (t.close == close || (t.close == [] && |t.open| + |t.body| == |s|))
  {
    var open, hashes := RawOpening(s).value.0, RawOpening(s).value.1;
    if k < RawLength(s[open..], hashes) {
      RawInside(s, open, hashes, k);
    }
    RawEnds(s, open, hashes);
  }

  lemma {:induction false} RawInside(s: string, open: nat, hashes: nat, k: nat)
    requires open <= |s| && k < RawLength(s[open..], hashes)
    ensures !Starts(s[open + k..], ['"'] + HashRun(hashes))
  {
    var inner := s[open..];
    RawLengthIsFirst(inner, hashes, k);
    RawCloses(inner[k..], hashes);
    assert inner[k..] == s[open + k..];
  }

  lemma {:induction false} RawEnds(s: string, open: nat, hashes: nat)
    requires 0 < open <= |s|
    ensures
      var t := RawFrom(s, open, hashes);
      t.RawString? && (t.close == ['"'] + HashRun(hashes) || (t.close == [] && |t.open| + |t.body| == |s|))
  {
    var inner := s[open..];
    var n := RawLength(inner, hashes);
    if n < |inner| {
      RawLengthIsFirst(inner, hashes, n);
      RawCloses(inner[n..], hashes);
      assert inner[n..][..1 + hashes] == s[open + n..open + n + 1 + hashes];
    }
  }

  lemma {:induction false} BackslashesBefore(s: string, body: string, k: nat)
    requires k <= |body| <= |s| && s[..|body|] == body
    ensures Backslashes(s, k) == Backslashes(body, k)
  {
    if k > 0 {
      assert s[..|body|][k - 1] == body[k - 1];
      BackslashesBefore(s, body, k - 1);
    }
  }

  /** A string's parts: every quote in it escaped, then one that is not, or the end of the text. */
  lemma {:induction false} StringParts(s: string, k: nat)
    requires s != [] && s[0] == '"'
    ensures
      var t := StringToken(s);
      && t.StringLiteral? && (t.close == "\"" || (t.close == [] && 1 + |t.body| == |s|))
      && (k < |t.body| && t.body[k] == '"' ==> Escaped(t.body, k))
      && (t.close != [] ==> !Escaped(t.body, |t.body|))
  {
    var inner := s[1..];
    var n, body := StringLength(inner), inner[..StringLength(inner)];
    assert StringToken(s).body == s[1..1 + n] == body;
    if k < n && body[k] == '"' {
      StringEndsAtBareQuote(inner, k);
      BackslashesBefore(inner, body, k);
    }
    if n < |inner| {
      StringEndsAtBareQuote(inner, n);
      BackslashesBefore(inner, body, n);
      assert s[1 + n..2 + n] == [inner[n]];
    }
  }

  /** A char literal's content is a legal one, between quotes. */
  lemma {:induction false} CharParts(s: string) returns (body: CharBody)
    requires CharLength(s).Some?
    ensures StartsLiteral(s, body) && CharToken(s) == CharLiteral(BodyText(body))
  {
    body := LiteralTaken(s);
    Between(s, BodyText(body));
  }

  lemma {:induction false} Between(s: string, content: string)
    requires Starts(s, ['\''] + content + ['\''])
    ensures s[1..1 + |content|] == content
  {
    var whole := ['\''] + content + ['\''];
    StartsByChar(s, whole);
    assert forall k :: 0 <= k < |content| ==> whole[1 + k] == content[k];
  }
}
