/**
 * What the blanking lexer's block comments and string literals are, said without
 * its scan: a block comment is a tree of nested ones, and a string ends at the
 * first quote no backslash escapes.
 */
module TokenGrammar {
  import opened Blank

  // ---- Block comments ---------------------------------------------------

  /** What a block comment holds: characters, and comments nested in it. */
  datatype Part = Plain(c: char) | Nested(parts: seq<Part>)

  function Render(p: Part): string
    decreases p, 1
  {
    match p
    case Plain(c) => [c]
    case Nested(parts) => "/*" + RenderAll(parts) + "*/"
  }

  function RenderAll(ps: seq<Part>): string
    decreases ps, 0
  {
    if ps == [] then [] else Render(ps[0]) + RenderAll(ps[1..])
  }

  /** No plain character starts a delimiter with what follows it, `after` being what follows the parts. */
  predicate Clear(ps: seq<Part>, after: string)
    decreases ps, 0
  {
    ps == [] || (ClearPart(ps[0], RenderAll(ps[1..]) + after) && Clear(ps[1..], after))
  }

  predicate ClearPart(p: Part, after: string)
    decreases p, 1
  {
    match p
    case Plain(c) => !Starts([c] + after, "/*") && !Starts([c] + after, "*/")
    case Nested(parts) => Clear(parts, "*/" + after)
  }

  /** The first `n` characters of `s` are the block comment of `parts`. */
  ghost predicate IsComment(s: string, n: nat, parts: seq<Part>) {
    4 <= n <= |s| && s[..n] == Render(Nested(parts)) && Clear(parts, s[n - 2..])
  }

  /** The scan passes a part and is as deep after it as before. */
  lemma {:induction false} ReadPart(p: Part, rest: string, depth: nat)
    requires ClearPart(p, rest) && depth >= 1
    ensures BlockLength(Render(p) + rest, depth) == |Render(p)| + BlockLength(rest, depth)
    decreases p, 1
  {
    match p
    case Plain(c) =>
      assert ([c] + rest)[1..] == rest;
    case Nested(parts) =>
      ReadParts(parts, "*/" + rest, depth + 1);
      ReadClose(rest, depth);
      ReadOpen(RenderAll(parts) + ("*/" + rest), depth);
      Grouped("/*", RenderAll(parts), "*/", rest);
  }

  lemma {:induction false} ReadOpen(inner: string, depth: nat)
    ensures BlockLength("/*" + inner, depth) == 2 + BlockLength(inner, depth + 1)
  {
    var s := "/*" + inner;
    assert s[..2] == "/*" && s[2..] == inner;
  }

  lemma {:induction false} ReadClose(rest: string, depth: nat)
    requires depth >= 1
    ensures BlockLength("*/" + rest, depth + 1) == 2 + BlockLength(rest, depth)
    ensures BlockLength("*/" + rest, 1) == 2
  {
    var close := "*/" + rest;
    assert close[..2] == "*/" && close[2..] == rest && close[0] == '*';
  }

  lemma {:induction false} ReadParts(ps: seq<Part>, tail: string, depth: nat)
    requires Clear(ps, tail) && depth >= 1
    ensures BlockLength(RenderAll(ps) + tail, depth) == |RenderAll(ps)| + BlockLength(tail, depth)
    decreases ps, 0
  {
    if ps == [] {
      assert RenderAll(ps) + tail == tail;
    } else {
      var rest := RenderAll(ps[1..]) + tail;
      ReadParts(ps[1..], tail, depth);
      ReadPart(ps[0], rest, depth);
      assert RenderAll(ps) + tail == Render(ps[0]) + rest;
    }
  }

  /** A comment whose delimiters all stand apart is read back whole, whatever follows it. */
  lemma {:induction false} NestedReadsBack(parts: seq<Part>, rest: string)
    requires Clear(parts, "*/" + rest)
    ensures BlockLength(Render(Nested(parts)) + rest, 0) == |Render(Nested(parts))|
  {
    ReadParts(parts, "*/" + rest, 1);
    ReadClose(rest, 1);
    ReadOpen(RenderAll(parts) + ("*/" + rest), 0);
    Grouped("/*", RenderAll(parts), "*/", rest);
  }

  /** Inside a comment, `parts` reach its closing at `n`. */
  ghost predicate ReachesClose(s: string, parts: seq<Part>, n: nat) {
    n + 2 <= |s| && s[..n] == RenderAll(parts) && Starts(s[n..], "*/") && Clear(parts, s[n..])
  }

  /** The parts up to the closing of the comment `s` is inside of, or none and the scan runs out. */
  lemma {:induction false} Parse(s: string, depth: nat) returns (parts: seq<Part>, n: nat, closed: bool)
    requires depth >= 1
    ensures if closed then ReachesClose(s, parts, n) else BlockLength(s, depth) == |s|
    decreases |s|, 1
  {
    if s == [] {
      parts, n, closed := [], 0, false;
    } else if Starts(s, "/*") {
      parts, n, closed := ParseNested(s, depth);
    } else if Starts(s, "*/") {
      parts, n, closed := [], 0, true;
      assert s[0..] == s;
    } else {
      parts, n, closed := ParsePlain(s, depth);
    }
  }

  lemma {:induction false} ParsePlain(s: string, depth: nat) returns (parts: seq<Part>, n: nat, closed: bool)
    requires depth >= 1 && s != [] && !Starts(s, "/*") && !Starts(s, "*/")
    ensures if closed then ReachesClose(s, parts, n) else BlockLength(s, depth) == |s|
    decreases |s|, 0
  {
    assert s == [s[0]] + s[1..];
    parts, n, closed := ParseAfter(s, Plain(s[0]), s[1..], depth);
  }

  lemma {:induction false} ParseNested(s: string, depth: nat) returns (parts: seq<Part>, n: nat, closed: bool)
    requires depth >= 1 && Starts(s, "/*")
    ensures if closed then ReachesClose(s, parts, n) else BlockLength(s, depth) == |s|
    decreases |s|, 0
  {
    var inner, k, innerClosed := Parse(s[2..], depth + 1);
    parts, n, closed := [], 0, false;
    if innerClosed {
      NestedText(s, inner, k);
      parts, n, closed := ParseAfter(s, Nested(inner), s[k + 4..], depth);
    } else {
      ReadOpen(s[2..], depth);
      assert s == "/*" + s[2..];
    }
  }

  lemma {:induction false} ParseAfter(s: string, p: Part, rest: string, depth: nat) returns (parts: seq<Part>, n: nat, closed: bool)
    requires depth >= 1 && s == Render(p) + rest && Render(p) != [] && ClearPart(p, rest)
    ensures if closed then ReachesClose(s, parts, n) else BlockLength(s, depth) == |s|
    decreases |rest|, 2
  {
    parts, n, closed := Parse(rest, depth);
    if closed {
      Joined(s, p, rest, parts, n);
      parts, n := [p] + parts, |Render(p)| + n;
    } else {
      ReadPart(p, rest, depth);
    }
  }

  /** A nested comment the text starts with, and what follows it. */
  lemma {:induction false} NestedText(s: string, inner: seq<Part>, k: nat)
    requires Starts(s, "/*") && ReachesClose(s[2..], inner, k)
    ensures k + 4 <= |s| && |Render(Nested(inner))| == k + 4
    ensures s == Render(Nested(inner)) + s[k + 4..] && ClearPart(Nested(inner), s[k + 4..])
  {
    Delimited(s, RenderAll(inner), k);
  }

  lemma {:induction false} Delimited(s: string, body: string, k: nat)
    requires Starts(s, "/*") && k + 4 <= |s| && s[2..][..k] == body && Starts(s[2..][k..], "*/")
    ensures s == "/*" + body + "*/" + s[k + 4..] && s[2..][k..] == "*/" + s[k + 4..]
  {
    var tail, close := s[2..], s[2..][k..];
    assert s == "/*" + tail && tail == body + close;
    assert close == "*/" + close[2..] && close[2..] == s[k + 4..];
    Grouped("/*", body, "*/", s[k + 4..]);
  }

  lemma Grouped(a: string, b: string, c: string, d: string)
    ensures a + (b + (c + d)) == a + b + c + d
  {
  }

  /** One part before others that reach a closing. */
  lemma {:induction false} Joined(s: string, p: Part, rest: string, more: seq<Part>, m: nat)
    requires s == Render(p) + rest && ClearPart(p, rest) && ReachesClose(rest, more, m)
    ensures ReachesClose(s, [p] + more, |Render(p)| + m)
  {
    assert ([p] + more)[1..] == more;
    assert rest == RenderAll(more) + rest[m..];
    assert s[|Render(p)| + m..] == rest[m..];
  }

  /**
   * A block comment token is the comment its nesting makes: the only one the
   * text starts with, delimiters read from the left; where there is none, for
   * want of a closing, it is the rest of the text.
   */
  lemma {:induction false} BlockTokenIsNested(s: string)
    requires Starts(s, "/*")
    ensures
      var n := |TextOf(BlockToken(s))|;
      && (forall k, parts :: IsComment(s, k, parts) ==> k == n)
      && (forall k, parts, j, others :: IsComment(s, k, parts) && IsComment(s, j, others) ==> parts == others)
      && ((exists parts :: IsComment(s, n, parts)) || (n == |s| && forall k, parts :: !IsComment(s, k, parts)))
  {
    var n := BlockLength(s, 0);
    forall k, parts | IsComment(s, k, parts) ensures k == n {
      CommentIsRead(s, k, parts);
    }
    forall k, parts, j, others | IsComment(s, k, parts) && IsComment(s, j, others) ensures parts == others {
      OneTree(s, k, parts, j, others);
    }
    var parts, m, closed := Parse(s[2..], 1);
    if closed {
      Opened(s, parts, m);
      CommentIsRead(s, m + 4, parts);
    }
  }

  /** Inside a comment, `s` is `parts`, its closing and `rest`. */
  ghost predicate Inside(s: string, parts: seq<Part>, rest: string) {
    s == RenderAll(parts) + ("*/" + rest) && Clear(parts, "*/" + rest)
  }

  /** What follows the first part, inside the same comment. */
  function AfterFirst(ps: seq<Part>, rest: string): string
    requires ps != []
  {
    RenderAll(ps[1..]) + ("*/" + rest)
  }

  lemma {:induction false} FirstInside(s: string, ps: seq<Part>, rest: string)
    requires Inside(s, ps, rest) && ps != []
    ensures s == Render(ps[0]) + AfterFirst(ps, rest) && ClearPart(ps[0], AfterFirst(ps, rest))
    ensures Inside(AfterFirst(ps, rest), ps[1..], rest)
  {
  }

  /** The same text inside a comment has one reading: the same parts up to the same closing. */
  lemma {:induction false} SameParts(s: string, ps: seq<Part>, qs: seq<Part>, a: string, b: string)
    requires Inside(s, ps, a) && Inside(s, qs, b)
    ensures ps == qs && a == b
    decreases |s|
  {
    if ps == [] || qs == [] {
      EmptyParts(s, ps, qs, a, b);
    } else {
      var restP, restQ := AfterFirst(ps, a), AfterFirst(qs, b);
      FirstInside(s, ps, a);
      FirstInside(s, qs, b);
      FirstPart(ps[0], qs[0], restP, restQ);
      if ps[0].Nested? {
        NestedOpens(ps[0], restP);
        SameParts(s[2..], ps[0].parts, qs[0].parts, restP, restQ);
      }
      SameParts(restP, ps[1..], qs[1..], a, b);
      assert ps == [ps[0]] + ps[1..] && qs == [qs[0]] + qs[1..];
    }
  }

  /** Where one side has reached its closing, so has the other. */
  lemma {:induction false} EmptyParts(s: string, ps: seq<Part>, qs: seq<Part>, a: string, b: string)
    requires Inside(s, ps, a) && Inside(s, qs, b) && (ps == [] || qs == [])
    ensures ps == qs && a == b
  {
    if ps != [] {
      assert s[..2] == "*/";
      NotClosed(s, ps, a);
    } else if qs != [] {
      assert s[..2] == "*/";
      NotClosed(s, qs, b);
    } else {
      assert s[2..] == a && s[2..] == b;
    }
  }

  /** A part is no closing. */
  lemma {:induction false} NotClosed(s: string, ps: seq<Part>, a: string)
    requires Inside(s, ps, a) && ps != []
    ensures !Starts(s, "*/")
  {
    FirstInside(s, ps, a);
    if ps[0].Nested? {
      NestedOpens(ps[0], AfterFirst(ps, a));
      assert s[..2][0] == '/';
    }
  }

  /** Two readings agree on the first part's kind, on a plain one whole, and on the text inside and after a nested one. */
  lemma {:induction false} FirstPart(p: Part, q: Part, restP: string, restQ: string)
    requires Render(p) + restP == Render(q) + restQ && ClearPart(p, restP) && ClearPart(q, restQ)
    ensures p.Nested? <==> q.Nested?
    ensures p.Plain? ==> p == q && restP == restQ
    ensures p.Nested? ==> RenderAll(p.parts) + ("*/" + restP) == RenderAll(q.parts) + ("*/" + restQ)
  {
    var s := Render(p) + restP;
    if p.Nested? { NestedOpens(p, restP); }
    if q.Nested? { NestedOpens(q, restQ); }
    if p.Plain? && q.Plain? {
      assert s[0] == p.c == q.c && s[1..] == restP == restQ;
    }
  }

  lemma {:induction false} NestedOpens(p: Part, rest: string)
    requires p.Nested?
    ensures Starts(Render(p) + rest, "/*") && (Render(p) + rest)[2..] == RenderAll(p.parts) + ("*/" + rest)
  {
    Grouped("/*", RenderAll(p.parts), "*/", rest);
    var inner := RenderAll(p.parts) + ("*/" + rest);
    assert ("/*" + inner)[..2] == "/*" && ("/*" + inner)[2..] == inner;
  }

  /** A text starts with at most one comment, of one tree. */
  lemma {:induction false} OneTree(s: string, k: nat, ps: seq<Part>, j: nat, qs: seq<Part>)
    requires IsComment(s, k, ps) && IsComment(s, j, qs)
    ensures ps == qs && k == j
  {
    InsideOf(s, k, ps);
    InsideOf(s, j, qs);
    SameParts(s[2..], ps, qs, s[k..], s[j..]);
    CommentIsRead(s, k, ps);
    CommentIsRead(s, j, qs);
  }

  /** What follows the opening of a comment is its parts, its closing and the rest. */
  lemma {:induction false} InsideOf(s: string, k: nat, ps: seq<Part>)
    requires IsComment(s, k, ps)
    ensures s[2..] == RenderAll(ps) + ("*/" + s[k..]) && s[k - 2..] == "*/" + s[k..]
  {
    var whole := Render(Nested(ps));
    assert s == whole + s[k..];
    NestedOpens(Nested(ps), s[k..]);
    assert s[k - 2..] == s[..k][k - 2..] + s[k..];
    assert whole[k - 2..] == "*/";
  }

  lemma {:induction false} CommentIsRead(s: string, k: nat, parts: seq<Part>)
    requires IsComment(s, k, parts)
    ensures k == BlockLength(s, 0)
  {
    var whole := Render(Nested(parts));
    assert s[k - 2..] == "*/" + s[k..] by {
      assert s[k - 2..] == s[..k][k - 2..] + s[k..];
      assert whole[k - 2..] == "*/";
    }
    NestedReadsBack(parts, s[k..]);
    assert s == whole + s[k..];
  }

  lemma {:induction false} Opened(s: string, parts: seq<Part>, m: nat)
    requires Starts(s, "/*") && ReachesClose(s[2..], parts, m)
    ensures IsComment(s, m + 4, parts)
  {
    var tail := s[2..];
    assert s[m + 2..] == tail[m..];
    assert tail[m..][..2] == "*/";
    assert s[..m + 4] == s[..2] + tail[..m] + tail[m..][..2];
  }

  // ---- String literals --------------------------------------------------

  /** The backslashes right before position `k`. */
  function Backslashes(s: string, k: nat): nat
    requires k <= |s|
  {
    if k == 0 || s[k - 1] != '\\' then 0 else 1 + Backslashes(s, k - 1)
  }

  predicate Escaped(s: string, k: nat)
    requires k <= |s|
  {
    Backslashes(s, k) % 2 == 1
  }

  /** From an unescaped position the scan stops at the first quote that is not escaped. */
  lemma {:induction false} ScanFrom(s: string, i: nat, k: nat)
    requires i <= k < |s| && !Escaped(s, i) && k <= i + StringLength(s[i..]) && s[k] == '"'
    ensures Escaped(s, k) <==> k < i + StringLength(s[i..])
    decreases |s| - i
  {
    var t := s[i..];
    if t[0] == '\\' {
      assert Backslashes(s, i + 1) == 1 + Backslashes(s, i);
      if k > i + 1 {
        assert Backslashes(s, i + 2) == if s[i + 1] == '\\' then 2 + Backslashes(s, i) else 0;
        assert t[2..] == s[i + 2..];
        ScanFrom(s, i + 2, k);
      }
    } else if k > i {
      assert t[1..] == s[i + 1..];
      ScanFrom(s, i + 1, k);
    }
  }

  /** A string's content ends at the first unescaped quote, and at none before; without one, with the text. */
  lemma {:induction false} StringEndsAtBareQuote(s: string, k: nat)
    requires k < |s| && k <= StringLength(s) && s[k] == '"'
    ensures Escaped(s, k) <==> k < StringLength(s)
  {
    assert s[0..] == s;
    ScanFrom(s, 0, k);
  }
}
