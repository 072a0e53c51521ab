/**
 * The destination allow-list (crates/b2bua-core/src/destination_allowlist.rs):
 * a b-leg host passes when it is an IP literal, or ends with a listed suffix at
 * a label boundary. Letter case is ASCII; what an IP literal is comes from
 * outside.
 */
module Allowlist {

  datatype AdmissionVerdict = IpLiteral | AllowListed | Reject

  function LowerChar(c: char): char {
    if 'A' <= c <= 'Z' then 'a' + (c - 'A') else c
  }

  function Lower(s: string): (r: string)
    ensures |r| == |s|
  {
    seq(|s|, i requires 0 <= i < |s| => LowerChar(s[i]))
  }

  predicate EndsWith(s: string, suffix: string) {
    |suffix| <= |s| && s[|s| - |suffix|..] == suffix
  }

  /** One entry of the list admits the host. */
  predicate Admits(entry: string, host: string) {
    if entry == "*" then true
    else if entry == "" then false
    else
      var lower, suffix := Lower(host), Lower(entry);
      if suffix[0] == '.' then EndsWith(lower, suffix)
      else lower == suffix || EndsWith(lower, "." + suffix)
  }

  /** Some entry admits the host, the entries tried in order. */
  predicate IsAllowedSuffix(host: string, suffixes: seq<string>) {
    suffixes != [] && (Admits(suffixes[0], host) || IsAllowedSuffix(host, suffixes[1..]))
  }

  function ClassifyAdmission(ipLiteral: bool, host: string, suffixes: seq<string>): AdmissionVerdict {
    if ipLiteral then IpLiteral
    else if IsAllowedSuffix(host, suffixes) then AllowListed
    else Reject
  }

  // ---- Labels -----------------------------------------------------------

  /** The labels of a name: what lies between its dots. */
  function Labels(s: string): (ls: seq<string>)
    ensures |ls| >= 1
  {
    if s == [] then [[]] else Push(s[0], Labels(s[1..]))
  }

  /** A character put before a name: a dot starts a label, another extends the first. */
  function Push(c: char, ls: seq<string>): (r: seq<string>)
    requires |ls| >= 1
    ensures |r| >= 1
  {
    if c == '.' then [[]] + ls else [[c] + ls[0]] + ls[1..]
  }

  /** Labels put back together with dots. */
  function Join(ls: seq<string>): string
    requires |ls| >= 1
  {
    if |ls| == 1 then ls[0] else ls[0] + "." + Join(ls[1..])
  }

  lemma {:induction false} JoinLabels(s: string)
    ensures Join(Labels(s)) == s
  {
    if s != [] {
      JoinLabels(s[1..]);
      JoinPushed(s[0], Labels(s[1..]));
    }
  }

  lemma {:induction false} JoinPushed(c: char, ls: seq<string>)
    requires |ls| >= 1
    ensures Join(Push(c, ls)) == [c] + Join(ls)
  {
    var pushed := Push(c, ls);
    if c == '.' {
      assert pushed[1..] == ls;
    } else if |ls| > 1 {
      assert pushed[1..] == ls[1..];
      Grouped([c], ls[0], ".", Join(ls[1..]));
    }
  }

  lemma Grouped(a: string, b: string, c: string, d: string)
    ensures a + b + c + d == a + (b + c + d)
  {
  }

  lemma PushAppend(c: char, a: seq<string>, b: seq<string>)
    requires |a| >= 1
    ensures Push(c, a + b) == Push(c, a) + b
  {
  }

  lemma {:induction false} LabelsAppend(a: string, b: string)
    ensures Labels(a + "." + b) == Labels(a) + Labels(b)
  {
    var whole := a + "." + b;
    if a == [] {
      assert whole[1..] == b;
    } else {
      assert whole[0] == a[0] && whole[1..] == a[1..] + "." + b;
      LabelsAppend(a[1..], b);
      PushAppend(a[0], Labels(a[1..]), Labels(b));
    }
  }

  lemma {:induction false} JoinAppend(a: seq<string>, b: seq<string>)
    requires |a| >= 1 && |b| >= 1
    ensures Join(a + b) == Join(a) + "." + Join(b)
  {
    if |a| == 1 {
      assert (a + b)[1..] == b;
    } else {
      assert (a + b)[1..] == a[1..] + b;
      JoinAppend(a[1..], b);
      assert a[0] + "." + (Join(a[1..]) + "." + Join(b)) == a[0] + "." + Join(a[1..]) + "." + Join(b);
    }
  }

  predicate SuffixOf(ls: seq<string>, of: seq<string>) {
    |ls| <= |of| && of[|of| - |ls|..] == ls
  }

  /** A name ends with `.name` exactly when its labels end with those of `name`, and more come before. */
  lemma {:induction false} BoundaryIsLabels(host: string, name: string)
    ensures EndsWith(host, "." + name) <==> SuffixOf(Labels(name), Labels(host)) && |Labels(name)| < |Labels(host)|
  {
    if EndsWith(host, "." + name) {
      NameEndsTheLabels(host, name);
    }
    if SuffixOf(Labels(name), Labels(host)) && |Labels(name)| < |Labels(host)| {
      LabelsEndTheName(host, name);
    }
  }

  lemma {:induction false} NameEndsTheLabels(host: string, name: string)
    requires EndsWith(host, "." + name)
    ensures SuffixOf(Labels(name), Labels(host)) && |Labels(name)| < |Labels(host)|
  {
    var front := host[..|host| - |name| - 1];
    assert host == front + "." + name;
    LabelsAppend(front, name);
    AppendedSuffix(Labels(front), Labels(name));
  }

  lemma AppendedSuffix(front: seq<string>, ls: seq<string>)
    ensures SuffixOf(ls, front + ls)
  {
  }

  lemma {:induction false} LabelsEndTheName(host: string, name: string)
    requires SuffixOf(Labels(name), Labels(host)) && |Labels(name)| < |Labels(host)|
    ensures EndsWith(host, "." + name)
  {
    var front := Labels(host)[..|Labels(host)| - |Labels(name)|];
    assert Labels(host) == front + Labels(name);
    JoinAppend(front, Labels(name));
    JoinLabels(host);
    JoinLabels(name);
    Tail(host, Join(front), name);
  }

  lemma Tail(host: string, front: string, name: string)
    requires host == front + "." + name
    ensures EndsWith(host, "." + name)
  {
  }

  lemma {:induction false} SameLabels(a: string, b: string)
    ensures Labels(a) == Labels(b) <==> a == b
  {
    JoinLabels(a);
    JoinLabels(b);
  }

  // ---- Properties -------------------------------------------------------

  /**
   * What an entry admits, in labels: `*` everything; one written without its
   * dot the name itself and all below it; one written with it only what lies
   * below; an empty one nothing.
   */
  ghost predicate AdmitsLabels(entry: string, host: string) {
    || entry == "*"
    || (entry != "" && entry[0] != '.' && SuffixOf(Labels(Lower(entry)), Labels(Lower(host))))
    || (entry != "" && entry[0] == '.'
        && var below := Labels(Lower(entry[1..]));
           SuffixOf(below, Labels(Lower(host))) && |below| < |Labels(Lower(host))|)
  }

  lemma {:induction false} AdmitsByLabels(entry: string, host: string)
    ensures Admits(entry, host) <==> AdmitsLabels(entry, host)
  {
    if entry != "*" && entry != "" {
      var lower, suffix := Lower(host), Lower(entry);
      if entry[0] == '.' {
        assert suffix == "." + Lower(entry[1..]);
        BoundaryIsLabels(lower, Lower(entry[1..]));
      } else {
        BoundaryIsLabels(lower, suffix);
        SameLabels(lower, suffix);
        DotlessSuffix(lower, suffix);
      }
    }
  }

  /** Suffixes by labels: the whole name, or a proper one. */
  lemma DotlessSuffix(host: string, name: string)
    ensures SuffixOf(Labels(name), Labels(host)) <==>
            Labels(host) == Labels(name) || (SuffixOf(Labels(name), Labels(host)) && |Labels(name)| < |Labels(host)|)
  {
  }

  /** A host is allowed exactly when some entry admits it by its labels. */
  lemma {:induction false} AllowedByLabels(host: string, suffixes: seq<string>)
    ensures IsAllowedSuffix(host, suffixes) <==> exists entry <- suffixes :: AdmitsLabels(entry, host)
  {
    if suffixes != [] {
      AdmitsByLabels(suffixes[0], host);
      AllowedByLabels(host, suffixes[1..]);
      assert forall entry :: entry in suffixes <==> entry == suffixes[0] || entry in suffixes[1..];
    }
  }

  /** A dotted entry also admits the name that is the entry itself, its first label empty. */
  lemma {:induction false} EmptyLabelIsBelow()
    ensures Admits(".a.b", ".a.b") && Labels(".a.b") == ["", "a", "b"]
    ensures IsAllowedSuffix(".a.b", [".a.b"]) && !IsAllowedSuffix("a.b", [".a.b"])
  {
    var host := ".a.b";
    assert Lower(host) == host && Lower("a.b") == "a.b";
    assert host[1..] == "a.b" && "a.b"[1..] == ".b" && ".b"[1..] == "b" && "b"[1..] == "";
    assert Labels("b") == ["b"] by { assert ['b'] + "" == "b"; }
    assert Labels(".b") == ["", "b"];
    assert Labels("a.b") == ["a", "b"] by { assert ['a'] + "" == "a"; }
    assert [".a.b"][1..] == [];
  }

  /** The same letter but for its case, or the very same character. */
  predicate SameLetter(a: char, b: char) {
    || a == b
    || ('A' <= a <= 'Z' && b as int == a as int + 32)
    || ('A' <= b <= 'Z' && a as int == b as int + 32)
  }

  predicate SameLetters(a: string, b: string) {
    |a| == |b| && forall i :: 0 <= i < |a| ==> SameLetter(a[i], b[i])
  }

  /** Lowering forgets the case of letters and nothing else. */
  lemma {:induction false} LowerForgetsCase(a: string, b: string)
    ensures Lower(a) == Lower(b) <==> SameLetters(a, b)
  {
    if Lower(a) == Lower(b) {
      forall i | 0 <= i < |a| ensures SameLetter(a[i], b[i]) {
        assert Lower(a)[i] == Lower(b)[i];
      }
    }
  }

  /** Letter case matters neither in the host nor in any entry. */
  lemma {:induction false} CaseNeverMatters(host: string, other: string, suffixes: seq<string>, others: seq<string>)
    requires SameLetters(host, other) && |suffixes| == |others|
    requires forall i :: 0 <= i < |suffixes| ==> SameLetters(suffixes[i], others[i])
    ensures IsAllowedSuffix(host, suffixes) == IsAllowedSuffix(other, others)
  {
    LowerForgetsCase(host, other);
    if suffixes != [] {
      LowerForgetsCase(suffixes[0], others[0]);
      assert suffixes[0] == "*" <==> others[0] == "*" by {
        assert |suffixes[0]| == 1 ==> SameLetter(suffixes[0][0], others[0][0]);
      }
      CaseNeverMatters(host, other, suffixes[1..], others[1..]);
    }
  }

  /** Letter case in the host never matters. */
  lemma {:induction false} CaseIgnored(host: string, other: string, suffixes: seq<string>)
    requires Lower(host) == Lower(other)
    ensures IsAllowedSuffix(host, suffixes) == IsAllowedSuffix(other, suffixes)
  {
    if suffixes != [] {
      CaseIgnored(host, other, suffixes[1..]);
    }
  }

  /** The gate rejects exactly the hosts that are no IP literal and that no entry admits. */
  lemma {:induction false} RejectedExactly(ipLiteral: bool, host: string, suffixes: seq<string>)
    ensures ClassifyAdmission(ipLiteral, host, suffixes) == Reject <==>
            !ipLiteral && forall entry <- suffixes :: !AdmitsLabels(entry, host)
    ensures ClassifyAdmission(ipLiteral, host, suffixes) == IpLiteral <==> ipLiteral
  {
    AllowedByLabels(host, suffixes);
  }
}
