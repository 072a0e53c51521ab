/**
 * The file-size ratchet (scripts/file-size.py): an allowlist of files over
 * their line limit, each with a budget, and the `--update` that tightens it.
 */
module FileSize {
  import opened Wrappers

  /** A line of the allowlist: an entry with its note, or a setting, comment or blank. */
  datatype Line = Entry(rel: string, budget: nat, note: Option<string>) | Other(text: string)

  /**
   * What an update looks at: the limits, the test files, every scanned file's
   * line count, and where each renamed file went.
   */
  datatype Tree = Tree(limit: nat, testLimit: nat, tests: set<string>, sizes: map<string, nat>, movedTo: map<string, string>)

  function LimitOf(t: Tree, rel: string): nat {
    if rel in t.tests then t.testLimit else t.limit
  }

  // ---- The allowlist ----------------------------------------------------

  /** The entries, by path. */
  function EntriesOf(lines: seq<Line>): map<string, nat> {
    if lines == [] then map[]
    else
      var line := lines[|lines| - 1];
      var before := EntriesOf(lines[..|lines| - 1]);
      if line.Entry? then before[line.rel := line.budget] else before
  }

  /** No path is listed twice. */
  predicate Distinct(lines: seq<Line>) {
    lines == [] ||
    var line := lines[|lines| - 1];
    var before := lines[..|lines| - 1];
    Distinct(before) && (line.Entry? ==> line.rel !in EntriesOf(before))
  }

  /** Read the entries; a path listed twice is a setup error. */
  method Load(lines: seq<Line>) returns (entries: Option<map<string, nat>>)
    ensures entries == if Distinct(lines) then Some(EntriesOf(lines)) else None
  {
    var found: map<string, nat> := map[];
    for i := 0 to |lines|
      invariant Distinct(lines[..i]) && found == EntriesOf(lines[..i])
    {
      assert lines[..i + 1][..i] == lines[..i];
      match lines[i]
      case Entry(rel, budget, _) =>
        if rel in found {
          RepeatStays(lines, i + 1);
          return None;
        }
        found := found[rel := budget];
      case Other(_) =>
    }
    assert lines[..|lines|] == lines;
    return Some(found);
  }

  lemma {:induction false} RepeatStays(lines: seq<Line>, i: nat)
    requires i <= |lines| && !Distinct(lines[..i])
    ensures !Distinct(lines)
    decreases |lines|
  {
    if i == |lines| {
      assert lines[..i] == lines;
    } else {
      var before := lines[..|lines| - 1];
      assert before[..i] == lines[..i];
      RepeatStays(before, i);
    }
  }

  lemma {:induction false} EntryIsListed(lines: seq<Line>, line: Line)
    requires Distinct(lines) && line in lines && line.Entry?
    ensures line.rel in EntriesOf(lines) && EntriesOf(lines)[line.rel] == line.budget
  {
    var last, before := lines[|lines| - 1], lines[..|lines| - 1];
    if line != last {
      assert line in before;
      EntryIsListed(before, line);
    }
  }

  lemma {:induction false} ListedByEntry(lines: seq<Line>, rel: string) returns (line: Line)
    requires rel in EntriesOf(lines)
    ensures line in lines && line.Entry? && line.rel == rel && line.budget == EntriesOf(lines)[rel]
  {
    var last, before := lines[|lines| - 1], lines[..|lines| - 1];
    if last.Entry? && last.rel == rel {
      line := last;
    } else {
      line := ListedByEntry(before, rel);
    }
  }

  // ---- What is over, what is stale --------------------------------------

  function Budget(t: Tree, entries: map<string, nat>, rel: string): nat {
    if rel in entries then entries[rel] else LimitOf(t, rel)
  }

  /** The scanned files over their budget. */
  function Over(t: Tree, entries: map<string, nat>): set<string> {
    set rel <- t.sizes | t.sizes[rel] > Budget(t, entries, rel)
  }

  method OverBudget(t: Tree, entries: map<string, nat>) returns (bad: set<string>)
    ensures bad == Over(t, entries)
  {
    bad := {};
    var left := t.sizes.Keys;
    while left != {}
      invariant left <= t.sizes.Keys && bad == set rel <- t.sizes.Keys - left | t.sizes[rel] > Budget(t, entries, rel)
    {
      var rel :| rel in left;
      left := left - {rel};
      if t.sizes[rel] > Budget(t, entries, rel) {
        bad := bad + {rel};
      }
    }
  }

  /** What holds a scanned file: its entry, else the limit of test files, else that of the others. */
  lemma OverByKind(t: Tree, entries: map<string, nat>, rel: string)
    requires rel in t.sizes
    ensures rel in Over(t, entries) <==>
      t.sizes[rel] > if rel in entries then entries[rel] else if rel in t.tests then t.testLimit else t.limit
  {
  }

  /** An entry that names a file gone or under its limit, or sits above its file's size. */
  predicate Stale(t: Tree, rel: string, budget: nat) {
    rel !in t.sizes || t.sizes[rel] <= LimitOf(t, rel) || t.sizes[rel] < budget
  }

  // ---- Updating ---------------------------------------------------------

  /** The entry of a file gone from its path follows it to a scanned path not listed yet. */
  predicate Moves(t: Tree, listed: set<string>, rel: string) {
    rel !in t.sizes && rel in t.movedTo && t.movedTo[rel] in t.sizes && t.movedTo[rel] !in listed
  }

  /** The path an entry is updated for. */
  function PathOf(t: Tree, listed: set<string>, rel: string): string {
    if Moves(t, listed, rel) then t.movedTo[rel] else rel
  }

  function Min(a: nat, b: nat): nat { if a <= b then a else b }

  /** A line after the update; none when it is removed. */
  function UpdatedLine(t: Tree, listed: set<string>, line: Line): Option<Line> {
    match line
    case Other(_) => Some(line)
    case Entry(rel, budget, note) =>
      var path := PathOf(t, listed, rel);
      if path !in t.sizes || t.sizes[path] <= LimitOf(t, path) then None
      else Some(Entry(path, Min(t.sizes[path], budget), if path == rel then note else None))
  }

  function UpdatedLines(t: Tree, listed: set<string>, lines: seq<Line>): seq<Line> {
    if lines == [] then []
    else
      var line := UpdatedLine(t, listed, lines[|lines| - 1]);
      UpdatedLines(t, listed, lines[..|lines| - 1]) + if line.Some? then [line.value] else []
  }

  function Updated(t: Tree, lines: seq<Line>): seq<Line> {
    UpdatedLines(t, EntriesOf(lines).Keys, lines)
  }

  /** Update one line, telling whether anything about it was reported as changed. */
  method UpdateOne(t: Tree, listed: set<string>, line: Line) returns (kept: Option<Line>, changed: bool)
    ensures kept == UpdatedLine(t, listed, line) && (!changed ==> kept == Some(line))
  {
    if line.Other? {
      return Some(line), false;
    }
    changed := false;
    var raw, rel, budget := line, line.rel, line.budget;
    var n := if rel in t.sizes then Some(t.sizes[rel]) else None;
    if n.None? && rel in t.movedTo && t.movedTo[rel] in t.sizes && t.movedTo[rel] !in listed {
      rel := t.movedTo[rel];
      n, changed := Some(t.sizes[rel]), true;
      if n.value > LimitOf(t, rel) {
        raw := Entry(rel, Min(n.value, budget), None);
      }
    }
    if n.None? || n.value <= LimitOf(t, rel) {
      return None, true;
    }
    if n.value < budget {
      raw, changed := Entry(rel, n.value, raw.note), true;
    }
    kept := Some(raw);
  }

  /** The allowlist file after `--update`, rewritten only when a line changed. */
  method Update(t: Tree, lines: seq<Line>) returns (file: seq<Line>)
    requires Distinct(lines)
    ensures file == Updated(t, lines)
  {
    var listed := EntriesOf(lines).Keys;
    var out, anyChanged := [], false;
    for i := 0 to |lines|
      invariant out == UpdatedLines(t, listed, lines[..i])
      invariant !anyChanged ==> out == lines[..i]
    {
      assert lines[..i + 1][..i] == lines[..i] && lines[..i + 1] == lines[..i] + [lines[i]];
      var kept, changed := UpdateOne(t, listed, lines[i]);
      anyChanged := anyChanged || changed;
      if kept.Some? {
        out := out + [kept.value];
      }
    }
    assert lines[..|lines|] == lines;
    file := if anyChanged then out else lines;
  }

  lemma {:induction false} UpdatedFrom(t: Tree, listed: set<string>, lines: seq<Line>, line: Line) returns (was: Line)
    requires line in UpdatedLines(t, listed, lines)
    ensures was in lines && UpdatedLine(t, listed, was) == Some(line)
  {
    var last, before := lines[|lines| - 1], lines[..|lines| - 1];
    if UpdatedLine(t, listed, last) == Some(line) {
      was := last;
    } else {
      assert line in UpdatedLines(t, listed, before);
      was := UpdatedFrom(t, listed, before, line);
    }
  }

  lemma {:induction false} UpdatedInto(t: Tree, listed: set<string>, lines: seq<Line>, was: Line)
    requires was in lines && UpdatedLine(t, listed, was).Some?
    ensures UpdatedLine(t, listed, was).value in UpdatedLines(t, listed, lines)
  {
    var last, before := lines[|lines| - 1], lines[..|lines| - 1];
    if was != last {
      assert was in before;
      UpdatedInto(t, listed, before, was);
    }
  }

  // ---- Properties -------------------------------------------------------

  /** `movedTo` turns the renames git reports (new path to old path) around. */
  ghost predicate Inverts(movedTo: map<string, string>, renamed: map<string, string>) {
    forall was <- movedTo :: movedTo[was] in renamed && renamed[movedTo[was]] == was
  }

  /** After an update no entry is stale. */
  lemma {:induction false} NoEntryStale(t: Tree, lines: seq<Line>, rel: string)
    requires rel in EntriesOf(Updated(t, lines))
    ensures !Stale(t, rel, EntriesOf(Updated(t, lines))[rel])
  {
    var line := ListedByEntry(Updated(t, lines), rel);
    var _ := UpdatedFrom(t, EntriesOf(lines).Keys, lines, line);
  }

  /** Two entries of different paths are never updated for the same one. */
  lemma PathsApart(t: Tree, renamed: map<string, string>, listed: set<string>, a: string, b: string)
    requires Inverts(t.movedTo, renamed) && a in listed && b in listed && a != b
    ensures PathOf(t, listed, a) != PathOf(t, listed, b)
  {
  }

  lemma {:induction false} UpdatedDistinct(t: Tree, renamed: map<string, string>, listed: set<string>, lines: seq<Line>)
    requires Inverts(t.movedTo, renamed) && Distinct(lines) && EntriesOf(lines).Keys <= listed
    ensures Distinct(UpdatedLines(t, listed, lines))
  {
    if lines != [] {
      var last, before := lines[|lines| - 1], lines[..|lines| - 1];
      UpdatedDistinct(t, renamed, listed, before);
      var out, line := UpdatedLines(t, listed, before), UpdatedLine(t, listed, last);
      if line.Some? {
        assert (out + [line.value])[..|out|] == out;
        if line.value.Entry? && line.value.rel in EntriesOf(out) {
          var other := ListedByEntry(out, line.value.rel);
          var was := UpdatedFrom(t, listed, before, other);
          EntryIsListed(before, was);
          PathsApart(t, renamed, listed, last.rel, was.rel);
        }
      } else {
        assert UpdatedLines(t, listed, lines) == out;
      }
    }
  }

  /** An update lists no path twice. */
  lemma {:induction false} NoPathTwice(t: Tree, renamed: map<string, string>, lines: seq<Line>)
    requires Inverts(t.movedTo, renamed) && Distinct(lines)
    ensures Distinct(Updated(t, lines))
  {
    UpdatedDistinct(t, renamed, EntriesOf(lines).Keys, lines);
  }

  /**
   * An update adds and raises nothing: each entry it leaves is one that was
   * there, under its own path or the one its file was renamed to, at no more.
   */
  lemma {:induction false} NeverRaises(t: Tree, lines: seq<Line>, rel: string) returns (was: string)
    requires Distinct(lines) && rel in EntriesOf(Updated(t, lines))
    ensures was in EntriesOf(lines) && EntriesOf(Updated(t, lines))[rel] <= EntriesOf(lines)[was]
    ensures rel == PathOf(t, EntriesOf(lines).Keys, was)
  {
    var line := ListedByEntry(Updated(t, lines), rel);
    var from := UpdatedFrom(t, EntriesOf(lines).Keys, lines, line);
    EntryIsListed(lines, from);
    was := from.rel;
  }

  /** An entry left under its own path keeps its note; one that moved with its file has none. */
  lemma {:induction false} NotesFollow(t: Tree, lines: seq<Line>, line: Line) returns (was: Line)
    requires line in Updated(t, lines) && line.Entry?
    ensures was in lines && was.Entry? && line.rel == PathOf(t, EntriesOf(lines).Keys, was.rel)
    ensures line.note == if line.rel == was.rel then was.note else None
  {
    was := UpdatedFrom(t, EntriesOf(lines).Keys, lines, line);
  }

  /** The lines that are no entry. */
  function Others(lines: seq<Line>): seq<Line> {
    if lines == [] then []
    else Others(lines[..|lines| - 1]) + if lines[|lines| - 1].Other? then [lines[|lines| - 1]] else []
  }

  /** An update keeps every setting and comment, in order. */
  lemma {:induction false} OthersKept(t: Tree, listed: set<string>, lines: seq<Line>)
    ensures Others(UpdatedLines(t, listed, lines)) == Others(lines)
  {
    if lines != [] {
      var last, before := lines[|lines| - 1], lines[..|lines| - 1];
      OthersKept(t, listed, before);
      var out, line := UpdatedLines(t, listed, before), UpdatedLine(t, listed, last);
      if line.Some? {
        assert (out + [line.value])[..|out|] == out;
      } else {
        assert out + [] == out;
      }
    }
  }

  lemma {:induction false} SettledLines(t: Tree, listed: set<string>, lines: seq<Line>)
    requires forall line <- lines :: line.Entry? ==> !Stale(t, line.rel, line.budget)
    ensures UpdatedLines(t, listed, lines) == lines
  {
    if lines != [] {
      SettledLines(t, listed, lines[..|lines| - 1]);
    }
  }

  /** A second update changes nothing. */
  lemma {:induction false} UpdateSettles(t: Tree, lines: seq<Line>)
    ensures Updated(t, Updated(t, lines)) == Updated(t, lines)
  {
    var after, listed := Updated(t, lines), EntriesOf(lines).Keys;
    forall line <- after | line.Entry? ensures !Stale(t, line.rel, line.budget) {
      var _ := UpdatedFrom(t, listed, lines, line);
    }
    SettledLines(t, EntriesOf(after).Keys, after);
  }

  /**
   * What an update takes off the over-budget files: a listed file past its
   * budget but within the limit, whose entry goes, and an unlisted one that
   * the entry of the path it was renamed from comes to cover.
   */
  ghost predicate Relieved(t: Tree, entries: map<string, nat>, rel: string)
    requires rel in t.sizes
  {
    if rel in entries then t.sizes[rel] <= LimitOf(t, rel)
    else exists was <- entries :: Moves(t, entries.Keys, was) && t.movedTo[was] == rel && t.sizes[rel] <= entries[was]
  }

  /** The entry an update leaves for the path of an entry. */
  lemma {:induction false} EntryAfter(t: Tree, renamed: map<string, string>, lines: seq<Line>, was: string)
    requires Inverts(t.movedTo, renamed) && Distinct(lines) && was in EntriesOf(lines)
    ensures
      var path, after := PathOf(t, EntriesOf(lines).Keys, was), EntriesOf(Updated(t, lines));
      if path in t.sizes && t.sizes[path] > LimitOf(t, path)
      then path in after && after[path] == Min(t.sizes[path], EntriesOf(lines)[was])
      else path !in after
  {
    var listed := EntriesOf(lines).Keys;
    var path, after := PathOf(t, listed, was), Updated(t, lines);
    var from := ListedByEntry(lines, was);
    if path in t.sizes && t.sizes[path] > LimitOf(t, path) {
      UpdatedInto(t, listed, lines, from);
      NoPathTwice(t, renamed, lines);
      EntryIsListed(after, UpdatedLine(t, listed, from).value);
    } else if path in EntriesOf(after) {
      NoEntryStale(t, lines, path);
    }
  }

  /** A path no entry is updated for is not listed after the update. */
  lemma {:induction false} UnlistedAfter(t: Tree, lines: seq<Line>, rel: string)
    requires Distinct(lines) && forall was <- EntriesOf(lines) :: PathOf(t, EntriesOf(lines).Keys, was) != rel
    ensures rel !in EntriesOf(Updated(t, lines))
  {
    if rel in EntriesOf(Updated(t, lines)) {
      var _ := NeverRaises(t, lines, rel);
    }
  }

  lemma {:induction false} OverAfterOne(t: Tree, renamed: map<string, string>, lines: seq<Line>, rel: string)
    requires Inverts(t.movedTo, renamed) && Distinct(lines) && rel in t.sizes
    ensures rel in Over(t, EntriesOf(Updated(t, lines))) <==>
            rel in Over(t, EntriesOf(lines)) && !Relieved(t, EntriesOf(lines), rel)
  {
    var entries := EntriesOf(lines);
    if rel in entries {
      EntryAfter(t, renamed, lines, rel);
    } else if was :| was in entries && PathOf(t, entries.Keys, was) == rel {
      EntryAfter(t, renamed, lines, was);
      forall other <- entries | other != was ensures PathOf(t, entries.Keys, other) != rel {
        PathsApart(t, renamed, entries.Keys, was, other);
      }
    } else {
      UnlistedAfter(t, lines, rel);
    }
  }

  /**
   * Exactly what an update does to the over-budget files: none comes to be
   * over, and those that cease to be are the relieved ones. So they are the
   * same before and after if and only if no over-budget file is relieved.
   */
  lemma {:induction false} OverAfterUpdate(t: Tree, renamed: map<string, string>, lines: seq<Line>)
    requires Inverts(t.movedTo, renamed) && Distinct(lines)
    ensures
      var before, after := Over(t, EntriesOf(lines)), Over(t, EntriesOf(Updated(t, lines)));
      && after == (set rel <- before | !Relieved(t, EntriesOf(lines), rel))
      && (after == before <==> forall rel <- before :: !Relieved(t, EntriesOf(lines), rel))
  {
    var before, after := Over(t, EntriesOf(lines)), Over(t, EntriesOf(Updated(t, lines)));
    forall rel <- t.sizes
      ensures rel in after <==> rel in before && !Relieved(t, EntriesOf(lines), rel)
    {
      OverAfterOne(t, renamed, lines, rel);
    }
    assert after == set rel <- before | !Relieved(t, EntriesOf(lines), rel);
  }

  /** Without any rename a file past its budget ceases to be over once updated. */
  lemma UpdateMayRelieve()
    ensures
      var t := Tree(500, 800, {}, map["a.rs" := 20], map[]);
      var lines := [Entry("a.rs", 10, None)];
      Over(t, EntriesOf(lines)) == {"a.rs"} && Over(t, EntriesOf(Updated(t, lines))) == {}
  {
  }

  // ---- Against the base -------------------------------------------------

  /** An entry does not loosen the base allowlist: listed there no lower, or moved from an entry there now gone. */
  predicate EntryTightens(entries: map<string, nat>, base: map<string, nat>, renamed: map<string, string>, rel: string)
    requires rel in entries
  {
    if rel in base then entries[rel] <= base[rel]
    else rel in renamed && renamed[rel] in base && renamed[rel] !in entries && entries[rel] <= base[renamed[rel]]
  }

  /** The entries pass the check against the base. */
  predicate Tightens(entries: map<string, nat>, base: map<string, nat>, renamed: map<string, string>) {
    forall rel <- entries :: EntryTightens(entries, base, renamed, rel)
  }

  /** The entries that loosen the base allowlist; without one, none. */
  method AgainstBase(entries: map<string, nat>, base: Option<map<string, nat>>, renamed: map<string, string>) returns (bad: set<string>)
    ensures base.None? ==> bad == {}
    ensures base.Some? ==> bad == set rel <- entries | !EntryTightens(entries, base.value, renamed, rel)
    ensures base.Some? ==> (bad == {} <==> Tightens(entries, base.value, renamed))
  {
    bad := {};
    if base.None? {
      return;
    }
    var left := entries.Keys;
    while left != {}
      invariant left <= entries.Keys
      invariant bad == set rel <- entries.Keys - left | !EntryTightens(entries, base.value, renamed, rel)
    {
      var rel :| rel in left;
      left := left - {rel};
      if rel in base.value {
        if entries[rel] > base.value[rel] {
          bad := bad + {rel};
        }
      } else if !(rel in renamed && renamed[rel] in base.value && renamed[rel] !in entries && entries[rel] <= base.value[renamed[rel]]) {
        bad := bad + {rel};
      }
    }
    assert forall rel :: rel in entries && !EntryTightens(entries, base.value, renamed, rel) ==> rel in bad;
  }

  /** Git's renames since the base: a new path was not there, and nothing moved on from it. */
  ghost predicate SinceBase(renamed: map<string, string>, base: map<string, nat>) {
    forall rel <- renamed :: rel !in base && rel !in renamed.Values
  }

  lemma {:induction false} TightensOne(t: Tree, renamed: map<string, string>, lines: seq<Line>, base: map<string, nat>, rel: string)
    requires Inverts(t.movedTo, renamed) && SinceBase(renamed, base) && Distinct(lines)
    requires Tightens(EntriesOf(lines), base, renamed) && rel in EntriesOf(Updated(t, lines))
    ensures EntryTightens(EntriesOf(Updated(t, lines)), base, renamed, rel)
  {
    var entries, after := EntriesOf(lines), EntriesOf(Updated(t, lines));
    var was := NeverRaises(t, lines, rel);
    assert EntryTightens(entries, base, renamed, was);
    if rel !in base {
      if rel == was {
        var source := renamed[rel];
        if source in after {
          var other := NeverRaises(t, lines, source);
        }
      } else {
        assert renamed[rel] == was && was in renamed.Values;
        if was in after {
          NoEntryStale(t, lines, was);
        }
      }
    }
  }

  /** An allowlist that passes the check against its base still does once updated. */
  lemma {:induction false} UpdateKeepsTight(t: Tree, renamed: map<string, string>, lines: seq<Line>, base: map<string, nat>)
    requires Inverts(t.movedTo, renamed) && SinceBase(renamed, base) && Distinct(lines)
    requires Tightens(EntriesOf(lines), base, renamed)
    ensures Tightens(EntriesOf(Updated(t, lines)), base, renamed)
  {
    forall rel <- EntriesOf(Updated(t, lines))
      ensures EntryTightens(EntriesOf(Updated(t, lines)), base, renamed, rel)
    {
      TightensOne(t, renamed, lines, base, rel);
    }
  }
}
