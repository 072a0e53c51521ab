/**
 * The panic-sites ratchet (scripts/panic-sites.py): counting sites, carrying
 * the budget of moved ones, holding the allowlist to its base, and updating it.
 */
module PanicSites {
  import opened Wrappers

  type Counts = map<string, nat>

  function Get(m: Counts, rel: string): nat { if rel in m then m[rel] else 0 }

  function Min(a: nat, b: nat): nat { if a < b then a else b }

  function Max(a: nat, b: nat): nat { if a < b then b else a }

  // ---- Totals -----------------------------------------------------------

  /** The sum of `m` over `keys`. */
  ghost function Sum(keys: set<string>, m: Counts): nat {
    if keys == {} then 0 else var k :| k in keys; Get(m, k) + Sum(keys - {k}, m)
  }

  ghost function Total(m: Counts): nat { Sum(m.Keys, m) }

  /** A key's value can be taken out of the sum first. */
  lemma {:induction false} SumTake(keys: set<string>, m: Counts, k: string)
    requires k in keys
    ensures Sum(keys, m) == Get(m, k) + Sum(keys - {k}, m)
    decreases |keys|
  {
    var first :| first in keys && Sum(keys, m) == Get(m, first) + Sum(keys - {first}, m);
    if first != k {
      SumTake(keys - {first}, m, k);
      assert keys - {first} - {k} == keys - {k} - {first};
      SumTake(keys - {k}, m, first);
    }
  }

  /** Keys a map does not hold add nothing. */
  lemma {:induction false} SumWiden(keys: set<string>, more: set<string>, m: Counts)
    requires keys <= more && forall k :: k in more && k !in keys ==> Get(m, k) == 0
    ensures Sum(more, m) == Sum(keys, m)
    decreases |more|
  {
    if more != keys {
      var k :| k in more && k !in keys;
      SumTake(more, m, k);
      SumWiden(keys, more - {k}, m);
    }
  }

  method Totalled(m: Counts) returns (total: nat)
    ensures total == Total(m)
  {
    total := 0;
    var left := m.Keys;
    while left != {}
      invariant left <= m.Keys && total + Sum(left, m) == Total(m)
      decreases left
    {
      var k :| k in left;
      SumTake(left, m, k);
      total := total + m[k];
      left := left - {k};
    }
  }

  // ---- Counting sites ---------------------------------------------------

  /** One panic-class finding: where it is, by file and line numbers. */
  datatype Finding = Finding(file: string, lines: set<nat>)

  /** The lines of each file git sees moved. */
  type Lines = map<string, set<nat>>

  predicate OnMoved(f: Finding, moved: Lines) {
    f.lines <= if f.file in moved then moved[f.file] else {}
  }

  /** The sites of `file`, of those on moved lines when `moved` is known. */
  function SitesIn(found: seq<Finding>, moved: Option<Lines>, file: string): nat {
    if found == [] then 0
    else
      var last := found[|found| - 1];
      SitesIn(found[..|found| - 1], moved, file)
      + if last.file == file && (moved.None? || OnMoved(last, moved.value)) then 1 else 0
  }

  method SitesOf(found: seq<Finding>, moved: Option<Lines>) returns (sites: Counts)
    ensures forall file :: Get(sites, file) == SitesIn(found, moved, file)
    ensures forall file :: file in sites ==> sites[file] > 0
  {
    sites := map[];
    for i := 0 to |found|
      invariant forall file :: Get(sites, file) == SitesIn(found[..i], moved, file)
      invariant forall file :: file in sites ==> sites[file] > 0
    {
      assert found[..i + 1][..i] == found[..i];
      var f := found[i];
      if moved.None? || OnMoved(f, moved.value) {
        sites := sites[f.file := Get(sites, f.file) + 1];
      }
    }
    assert found[..|found|] == found;
  }

  /** A finding of `file`, all of whose lines moved where moved lines are known. */
  ghost predicate Counted(f: Finding, moved: Option<Lines>, file: string) {
    f.file == file && (moved.Some? ==> forall line <- f.lines :: file in moved.value && line in moved.value[file])
  }

  ghost function CountedAt(found: seq<Finding>, moved: Option<Lines>, file: string): set<int> {
    set i | 0 <= i < |found| && Counted(found[i], moved, file)
  }

  lemma {:induction false} CountedOnMoved(f: Finding, moved: Option<Lines>, file: string)
    ensures Counted(f, moved, file) <==> f.file == file && (moved.None? || OnMoved(f, moved.value))
  {
    if moved.Some? && f.file == file && !OnMoved(f, moved.value) {
      var line :| line in f.lines && line !in if file in moved.value then moved.value[file] else {};
    }
  }

  lemma {:induction false} CountedOne(found: seq<Finding>, moved: Option<Lines>, file: string)
    requires found != []
    ensures |CountedAt(found, moved, file)|
         == |CountedAt(found[..|found| - 1], moved, file)| + if Counted(found[|found| - 1], moved, file) then 1 else 0
  {
    var n, front := |found| - 1, found[..|found| - 1];
    var before := CountedAt(front, moved, file);
    assert CountedAt(found, moved, file) == if Counted(found[n], moved, file) then before + {n} else before;
  }

  /** A file's sites are as many as its findings. */
  lemma {:induction false} SitesAreFindings(found: seq<Finding>, moved: Option<Lines>, file: string)
    ensures SitesIn(found, moved, file) == |CountedAt(found, moved, file)|
  {
    if found == [] {
      assert CountedAt(found, moved, file) == {};
    } else {
      SitesAreFindings(found[..|found| - 1], moved, file);
      CountedOne(found, moved, file);
      CountedOnMoved(found[|found| - 1], moved, file);
    }
  }

  // ---- Moved sites and what pays for them -------------------------------

  /** How far a file has fallen since the base counted it. */
  function Fallen(base: Counts, counts: Counts, rel: string): nat {
    if Get(base, rel) > Get(counts, rel) then Get(base, rel) - Get(counts, rel) else 0
  }

  /** By how much `files` together have fallen. */
  ghost function Pool(files: set<string>, base: Counts, counts: Counts): nat {
    if files == {} then 0 else var k :| k in files; Fallen(base, counts, k) + Pool(files - {k}, base, counts)
  }

  lemma {:induction false} PoolTake(files: set<string>, base: Counts, counts: Counts, k: string)
    requires k in files
    ensures Pool(files, base, counts) == Fallen(base, counts, k) + Pool(files - {k}, base, counts)
    decreases |files|
  {
    var first :| first in files && Pool(files, base, counts) == Fallen(base, counts, first) + Pool(files - {first}, base, counts);
    if first != k {
      PoolTake(files - {first}, base, counts, k);
      assert files - {first} - {k} == files - {k} - {first};
      PoolTake(files - {k}, base, counts, first);
    }
  }

  /** The moved sites are paid for by the files they left, or carry nothing. */
  ghost predicate PaidFor(moved: Counts, base: Option<Counts>, counts: Counts, movedFrom: set<string>) {
    Total(moved) <= if base.None? then 0 else Pool(movedFrom, base.value, counts)
  }

  /** The moved sites that carry budget: all of them where they are paid for, else none. */
  method Carried(sites: Counts, counts: Counts, base: Option<Counts>, movedFrom: set<string>) returns (moved: Counts)
    ensures moved == sites || moved == map[]
    ensures PaidFor(moved, base, counts, movedFrom)
    ensures moved == sites <==> (sites == map[] || PaidFor(sites, base, counts, movedFrom))
  {
    var pool := 0;
    if base.Some? {
      var left := movedFrom;
      while left != {}
        invariant left <= movedFrom && pool + Pool(left, base.value, counts) == Pool(movedFrom, base.value, counts)
        decreases left
      {
        var k :| k in left;
        PoolTake(left, base.value, counts, k);
        pool := pool + Fallen(base.value, counts, k);
        left := left - {k};
      }
    }
    var total := Totalled(sites);
    moved := if total <= pool then sites else map[];
  }

  // ---- Against the base -------------------------------------------------

  /** The budget `rel` had: its own entry at the base, else that of the path it came from if that entry is gone. */
  function BaseCount(rel: string, allow: Counts, base: Counts, renamed: map<string, string>): nat {
    if rel in base then base[rel]
    else if rel in renamed && renamed[rel] in base && renamed[rel] !in allow then base[renamed[rel]]
    else 0
  }

  /** The total rises past the base's and the revealed sites. */
  ghost predicate Rises(allow: Counts, base: Counts, revealed: Counts, tightened: bool) {
    Total(allow) > Total(base) + Total(revealed) && !tightened
  }

  /** Whether the entry of `rel` passes; `moved` is unknown where sites are. */
  ghost predicate EntryPasses(rel: string, allow: Counts, base: Counts, renamed: map<string, string>, moved: Option<Counts>,
                              revealed: Counts, tightened: bool)
    requires rel in allow
  {
    var before := BaseCount(rel, allow, base, renamed);
    || allow[rel] <= before
    || (!Rises(allow, base, revealed, tightened)
        && (moved.None? || allow[rel] - before <= Get(moved.value, rel) + Get(revealed, rel)))
  }

  ghost predicate Passes(allow: Counts, base: Counts, renamed: map<string, string>, moved: Option<Counts>, revealed: Counts,
                         tightened: bool)
  {
    forall rel :: rel in allow ==> EntryPasses(rel, allow, base, renamed, moved, revealed, tightened)
  }

  /**
   * What an entry may stand at: no more than it had at the base under its path or
   * the one it came from, the entry there gone; else no more than that and its
   * moved and revealed sites, while the list as a whole has not risen, which a
   * tightened rule excuses.
   */
  lemma EntryMayStand(rel: string, allow: Counts, base: Counts, renamed: map<string, string>, moved: Option<Counts>, revealed: Counts, tightened: bool)
    requires rel in allow
    ensures
      var n, from := allow[rel], if rel in base then rel else if rel in renamed && renamed[rel] !in allow then renamed[rel] else rel;
      var had := if from in base then base[from] else 0;
      EntryPasses(rel, allow, base, renamed, moved, revealed, tightened) <==>
        || n <= had
        || ((tightened || Total(allow) <= Total(base) + Total(revealed))
            && (moved.None? || n <= had + (if rel in moved.value then moved.value[rel] else 0) + if rel in revealed then revealed[rel] else 0))
  {
  }

  /** Collect the entries that fail; the list passes when there is none. */
  method AgainstBase(allow: Counts, base: Option<Counts>, renamed: map<string, string>, moved: Option<Counts>, revealed: Counts,
                     tightened: bool)
    returns (bad: set<string>)
    ensures base.None? ==> bad == {}
    ensures base.Some? ==> forall rel :: rel in bad <==>
      rel in allow && !EntryPasses(rel, allow, base.value, renamed, moved, revealed, tightened)
    ensures base.Some? ==> (bad == {} <==> Passes(allow, base.value, renamed, moved, revealed, tightened))
  {
    bad := {};
    if base.None? {
      return;
    }
    var listed := Totalled(allow);
    var held := Totalled(base.value);
    var shown := Totalled(revealed);
    var rises := listed > held + shown && !tightened;
    var left := allow.Keys;
    while left != {}
      invariant left <= allow.Keys
      invariant forall rel :: rel in bad <==>
        rel in allow.Keys - left && !EntryPasses(rel, allow, base.value, renamed, moved, revealed, tightened)
      decreases left
    {
      var rel :| rel in left;
      left := left - {rel};
      var before := BaseCount(rel, allow, base.value, renamed);
      if allow[rel] > before {
        if rises || (moved.Some? && allow[rel] - before > Get(moved.value, rel) + Get(revealed, rel)) {
          bad := bad + {rel};
        }
      }
    }
    if bad == {} {
      forall rel | rel in allow ensures EntryPasses(rel, allow, base.value, renamed, moved, revealed, tightened) {
        assert rel !in bad;
      }
    }
  }

  // ---- Updating ---------------------------------------------------------

  predicate StartsWith(s: string, prefix: string) { |prefix| <= |s| && s[..|prefix|] == prefix }

  /** A crate under one of `dirs` owns the file. */
  predicate Owned(dirs: set<string>, rel: string) {
    exists d :: d in dirs && StartsWith(rel, d + "/")
  }

  /** What an update reads: the list, the sites, the base, the renames git sees and the crates updated. */
  datatype Pass = Pass(
    allow: Counts,
    counts: Counts,
    moved: Counts,
    shown: Counts,
    base: Option<Counts>,
    renamed: map<string, string>,
    dirs: set<string>)

  /** Where an entry's budget goes: to the file it was renamed to, if that is unlisted and counted. */
  function NewHome(x: Pass, movedTo: map<string, string>, rel: string): string {
    if rel in movedTo && movedTo[rel] !in x.allow && (movedTo[rel] in x.counts || movedTo[rel] in x.moved)
    then movedTo[rel] else rel
  }

  /** The entries with renamed files' moved, in the order the list states them. */
  function Moved(x: Pass, movedTo: map<string, string>, order: seq<string>): Counts
    requires forall rel :: rel in order ==> rel in x.allow
  {
    if order == [] then map[]
    else
      var front, rel := order[..|order| - 1], order[|order| - 1];
      Moved(x, movedTo, front)[NewHome(x, movedTo, rel) := x.allow[rel]]
  }

  /** What a file's sites may stand at: its base count, its moved sites and its revealed ones. */
  function Ceiling(x: Pass, rel: string): nat {
    (if x.base.None? then 0 else BaseCount(rel, x.allow, x.base.value, x.renamed)) + Get(x.moved, rel) + Get(x.shown, rel)
  }

  /** The number an update gives `rel`: its count, held to its budget or what its sites can carry. */
  function Wanted(x: Pass, entries: Counts, rel: string): nat {
    Min(Get(x.counts, rel), Max(Get(entries, rel), Ceiling(x, rel)))
  }

  /** The entry of `rel` is as an update leaves it: at `want`; one at zero goes, unless listed at zero. */
  ghost predicate EntryUpdated(dirs: set<string>, after: Counts, entries: Counts, rel: string, want: nat) {
    if !Owned(dirs, rel) then (rel in after <==> rel in entries) && Get(after, rel) == Get(entries, rel)
    else Get(after, rel) == want && (rel in after <==> want > 0 || (rel in entries && entries[rel] == 0))
  }

  ghost predicate IsUpdated(x: Pass, after: Counts, entries: Counts) {
    forall rel :: EntryUpdated(x.dirs, after, entries, rel, Wanted(x, entries, rel))
  }

  /** Rename the entries, then set each file of the updated crates to what it wants. */
  method Updated(x: Pass, movedTo: map<string, string>, order: seq<string>) returns (entries: Counts)
    requires forall rel :: rel in order <==> rel in x.allow
    ensures IsUpdated(x, entries, Moved(x, movedTo, order))
  {
    var first: Counts := map[];
    for i := 0 to |order|
      invariant first == Moved(x, movedTo, order[..i])
    {
      assert order[..i + 1][..i] == order[..i];
      first := first[NewHome(x, movedTo, order[i]) := x.allow[order[i]]];
    }
    assert order[..|order|] == order;
    entries := SetEach(x, first);
  }

  /** The files of `left` are as they were, the others as the update leaves them. */
  ghost predicate PartlyUpdated(x: Pass, after: Counts, entries: Counts, left: set<string>) {
    forall rel :: if rel in left then (rel in after <==> rel in entries) && Get(after, rel) == Get(entries, rel)
      else EntryUpdated(x.dirs, after, entries, rel, Wanted(x, entries, rel))
  }

  method SetEach(x: Pass, first: Counts) returns (entries: Counts)
    ensures IsUpdated(x, entries, first)
  {
    entries := first;
    var left := first.Keys + x.counts.Keys;
    while left != {}
      invariant PartlyUpdated(x, entries, first, left)
      decreases left
    {
      var rel :| rel in left;
      ghost var before, todo := entries, left;
      left := left - {rel};
      entries := SetOne(rel, entries, first, x.dirs, Wanted(x, entries, rel));
      OneMore(x, before, entries, first, todo, rel);
    }
  }

  lemma OneMore(x: Pass, before: Counts, after: Counts, first: Counts, left: set<string>, rel: string)
    requires PartlyUpdated(x, before, first, left) && rel in left
    requires EntryUpdated(x.dirs, after, first, rel, Wanted(x, before, rel))
    requires forall k :: k != rel ==> (k in after <==> k in before) && Get(after, k) == Get(before, k)
    ensures PartlyUpdated(x, after, first, left - {rel})
  {
  }

  /** Set the entry of one file to what it wants, if a crate updated owns it. */
  method SetOne(rel: string, entries: Counts, ghost first: Counts, dirs: set<string>, want: nat) returns (after: Counts)
    requires (rel in entries <==> rel in first) && Get(entries, rel) == Get(first, rel)
    ensures EntryUpdated(dirs, after, first, rel, want)
    ensures forall k :: k != rel ==> (k in after <==> k in entries) && Get(after, k) == Get(entries, k)
  {
    after := entries;
    if Owned(dirs, rel) && want != Get(entries, rel) {
      after := if want == 0 then entries - {rel} else entries[rel := want];
    }
  }

  lemma {:induction false} OwnedIs(dirs: set<string>, rel: string)
    ensures Owned(dirs, rel) <==> exists d :: d in dirs && |d| < |rel| && rel[..|d|] == d && rel[|d|] == '/'
  {
    if Owned(dirs, rel) {
      var d :| d in dirs && StartsWith(rel, d + "/");
      assert rel[..|d|] == (d + "/")[..|d|] && rel[|d|] == (d + "/")[|d|];
    }
    if d :| d in dirs && |d| < |rel| && rel[..|d|] == d && rel[|d|] == '/' {
      assert rel[..|d| + 1] == d + "/";
    }
  }

  /**
   * What an update leaves of a file, in numbers: in a crate updated its count,
   * held to the larger of its budget and what its base, moved and revealed
   * sites allow; elsewhere its budget.
   */
  lemma {:induction false} UpdatedExactly(x: Pass, after: Counts, entries: Counts, rel: string)
    requires IsUpdated(x, after, entries)
    ensures
      var owned := exists d :: d in x.dirs && |d| < |rel| && rel[..|d|] == d && rel[|d|] == '/';
      var from := if x.base.None? || rel in x.base.value || !(rel in x.renamed && x.renamed[rel] !in x.allow) then rel else x.renamed[rel];
      var had := if x.base.Some? && from in x.base.value then x.base.value[from] else 0;
      var most := had + (if rel in x.moved then x.moved[rel] else 0) + if rel in x.shown then x.shown[rel] else 0;
      var held, count := if rel in entries then entries[rel] else 0, if rel in x.counts then x.counts[rel] else 0;
      (if rel in after then after[rel] else 0) == if !owned then held else if count <= held || count <= most then count else if held < most then most else held
  {
    OwnedIs(x.dirs, rel);
    assert EntryUpdated(x.dirs, after, entries, rel, Wanted(x, entries, rel));
  }

  /** Each path is stated once. */
  ghost predicate Once(order: seq<string>) {
    forall i, j :: 0 <= i < j < |order| ==> order[i] != order[j]
  }

  /** The path an entry's budget goes to: a file renamed away from it, counted or holding moved sites, and not listed itself. */
  ghost predicate GoesTo(x: Pass, movedTo: map<string, string>, rel: string, home: string) {
    if rel in movedTo && movedTo[rel] !in x.allow && (movedTo[rel] in x.counts || movedTo[rel] in x.moved)
    then home == movedTo[rel] else home == rel
  }

  /** Renames carry every budget over, to its own file and no other. */
  lemma {:induction false} RenamesCarry(x: Pass, movedTo: map<string, string>, order: seq<string>)
    requires (forall rel :: rel in order ==> rel in x.allow) && Once(order)
    requires forall a, b :: a in movedTo && b in movedTo && movedTo[a] == movedTo[b] ==> a == b
    ensures forall rel, home :: rel in order && GoesTo(x, movedTo, rel, home) ==>
      home in Moved(x, movedTo, order) && Moved(x, movedTo, order)[home] == x.allow[rel]
    ensures forall home :: home in Moved(x, movedTo, order) ==> exists rel :: rel in order && GoesTo(x, movedTo, rel, home)
  {
    if order != [] {
      var front, last := order[..|order| - 1], order[|order| - 1];
      assert order == front + [last];
      RenamesCarry(x, movedTo, front);
      HomesApart(x, movedTo, front, last);
      forall home | home in Moved(x, movedTo, order) ensures exists rel :: rel in order && GoesTo(x, movedTo, rel, home) {
        if home == NewHome(x, movedTo, last) {
          assert last in order && GoesTo(x, movedTo, last, home);
        } else {
          assert home in Moved(x, movedTo, front);
          var rel :| rel in front && GoesTo(x, movedTo, rel, home);
          assert rel in order;
        }
      }
    }
  }

  lemma {:induction false} HomesApart(x: Pass, movedTo: map<string, string>, front: seq<string>, last: string)
    requires last in x.allow && last !in front && forall rel :: rel in front ==> rel in x.allow
    requires forall a, b :: a in movedTo && b in movedTo && movedTo[a] == movedTo[b] ==> a == b
    ensures forall rel :: rel in front ==> NewHome(x, movedTo, rel) != NewHome(x, movedTo, last)
  {
  }

  // ---- What an update leaves --------------------------------------------

  /** Without renames an update starts from the list itself. */
  lemma {:induction false} NoRenames(x: Pass, order: seq<string>)
    requires forall rel :: rel in order ==> rel in x.allow
    ensures
      var r := Moved(x, map[], order);
      forall rel :: (rel in r <==> rel in order) && (rel in r ==> r[rel] == x.allow[rel])
    ensures (forall rel :: rel in x.allow ==> rel in order) ==> Moved(x, map[], order) == x.allow
  {
    if order != [] {
      var front := order[..|order| - 1];
      assert forall rel :: rel in order <==> rel in front || rel == order[|order| - 1];
      NoRenames(x, front);
    }
  }

  /** A pass against a base, without renames, over crates owning every path. */
  ghost predicate Plain(x: Pass) {
    x.base.Some? && x.renamed == map[] && forall rel :: rel in x.allow || rel in x.counts ==> Owned(x.dirs, rel)
  }

  /** The list passes the base check, its moved and revealed sites known. */
  ghost predicate PassesBase(x: Pass, list: Counts) {
    x.base.Some? && Passes(list, x.base.value, x.renamed, Some(x.moved), x.shown, false)
  }

  /** The entry is within its file's ceiling and its count. */
  ghost predicate Balanced(x: Pass, after: Counts, rel: string) {
    Get(after, rel) <= Ceiling(x, rel) && Get(after, rel) <= Get(x.counts, rel)
  }

  /** Moved sites are paid for by the files they left: the entries never outgrow the base and the revealed sites. */
  lemma {:induction false} Balance(x: Pass, keys: set<string>, after: Counts, movedFrom: set<string>)
    requires Plain(x) && forall rel :: rel in keys ==> Balanced(x, after, rel)
    requires movedFrom <= keys
    ensures Sum(keys, after) + Pool(movedFrom, x.base.value, x.counts)
         <= Sum(keys, x.base.value) + Sum(keys, x.moved) + Sum(keys, x.shown)
    decreases |keys|
  {
    if keys != {} {
      var k :| k in keys;
      SumTake(keys, after, k);
      SumTake(keys, x.base.value, k);
      SumTake(keys, x.moved, k);
      SumTake(keys, x.shown, k);
      BalancedOne(x, after, k);
      if k in movedFrom { PoolTake(movedFrom, x.base.value, x.counts, k); } else { assert movedFrom - {k} == movedFrom; }
      Balance(x, keys - {k}, after, movedFrom - {k});
    }
  }

  /** A balanced entry and what its file can pay fit the file's base count and its sites. */
  lemma BalancedOne(x: Pass, after: Counts, k: string)
    requires Plain(x) && Balanced(x, after, k)
    ensures Get(after, k) + Fallen(x.base.value, x.counts, k) <= Get(x.base.value, k) + Get(x.moved, k) + Get(x.shown, k)
  {
  }

  lemma {:induction false} TotalBalance(x: Pass, after: Counts, movedFrom: set<string>)
    requires Plain(x) && forall rel :: Balanced(x, after, rel)
    requires PaidFor(x.moved, x.base, x.counts, movedFrom)
    ensures Total(after) <= Total(x.base.value) + Total(x.shown)
  {
    var keys := after.Keys + x.base.value.Keys + x.moved.Keys + x.shown.Keys + movedFrom;
    Balance(x, keys, after, movedFrom);
    SumWiden(after.Keys, keys, after);
    SumWiden(x.base.value.Keys, keys, x.base.value);
    SumWiden(x.moved.Keys, keys, x.moved);
    SumWiden(x.shown.Keys, keys, x.shown);
  }

  /** Every budget an update keeps lies within what the file's sites can carry. */
  ghost predicate KeepsWithinCeilings(x: Pass) {
    forall rel :: rel in x.allow ==> Min(Get(x.counts, rel), x.allow[rel]) <= Ceiling(x, rel)
  }

  /** What a file's entry stands at after an update. */
  lemma UpdatedEntry(x: Pass, after: Counts, rel: string)
    requires Plain(x) && IsUpdated(x, after, x.allow)
    ensures Get(after, rel) == Wanted(x, x.allow, rel)
  {
  }

  /** Without renames, what the base check allows an entry is its ceiling, while the total stays down. */
  lemma WithinCeilingPasses(x: Pass, list: Counts, rel: string)
    requires Plain(x) && rel in list
    ensures list[rel] > Ceiling(x, rel) ==> !EntryPasses(rel, list, x.base.value, map[], Some(x.moved), x.shown, false)
    ensures list[rel] <= Ceiling(x, rel) && !Rises(list, x.base.value, x.shown, false) ==>
      EntryPasses(rel, list, x.base.value, map[], Some(x.moved), x.shown, false)
  {
  }

  /**
   * The update of a list passes the base check exactly when each budget it keeps
   * lies within its file's ceiling; then the list outgrows the base by at most the
   * revealed sites, since moved ones are paid for where they came from.
   */
  lemma {:induction false} UpdatePassesIff(x: Pass, after: Counts, movedFrom: set<string>)
    requires Plain(x) && IsUpdated(x, after, x.allow) && PaidFor(x.moved, x.base, x.counts, movedFrom)
    ensures PassesBase(x, after) <==> KeepsWithinCeilings(x)
    ensures KeepsWithinCeilings(x) ==> Total(after) <= Total(x.base.value) + Total(x.shown)
  {
    if KeepsWithinCeilings(x) {
      forall rel ensures Balanced(x, after, rel) { UpdatedEntry(x, after, rel); }
      TotalBalance(x, after, movedFrom);
      forall rel | rel in after ensures EntryPasses(rel, after, x.base.value, map[], Some(x.moved), x.shown, false) {
        assert Balanced(x, after, rel);
        WithinCeilingPasses(x, after, rel);
      }
    } else {
      var rel :| rel in x.allow && Min(Get(x.counts, rel), x.allow[rel]) > Ceiling(x, rel);
      UpdatedEntry(x, after, rel);
      assert rel in after;
      WithinCeilingPasses(x, after, rel);
    }
  }

  /** A list that passes the base check still passes once updated. */
  lemma {:induction false} UpdateKeepsPassing(x: Pass, after: Counts, movedFrom: set<string>)
    requires Plain(x) && IsUpdated(x, after, x.allow) && PaidFor(x.moved, x.base, x.counts, movedFrom)
    requires PassesBase(x, x.allow)
    ensures PassesBase(x, after) && Total(after) <= Total(x.base.value) + Total(x.shown)
  {
    forall rel | rel in x.allow ensures Min(Get(x.counts, rel), x.allow[rel]) <= Ceiling(x, rel) {
      WithinCeilingPasses(x, x.allow, rel);
    }
    UpdatePassesIff(x, after, movedFrom);
  }

  /** Without the check passing first it may not: a raised entry the update has no cause to lower stays. */
  lemma {:induction false} UpdateDoesNotRepair()
    ensures
      var x := Pass(map["c/a.rs" := 2], map["c/a.rs" := 2], map[], map[], Some(map["c/a.rs" := 1]), map[], {"c"});
      Plain(x) && IsUpdated(x, x.allow, x.allow) && !PassesBase(x, x.allow)
  {
    var x := Pass(map["c/a.rs" := 2], map["c/a.rs" := 2], map[], map[], Some(map["c/a.rs" := 1]), map[], {"c"});
    assert Owned(x.dirs, "c/a.rs") by { assert "c" in x.dirs && StartsWith("c/a.rs", "c" + "/"); }
    WithinCeilingPasses(x, x.allow, "c/a.rs");
  }

  /** An entry above its file's count. */
  ghost predicate Stale(x: Pass, entries: Counts, rel: string) {
    rel in entries && Owned(x.dirs, rel) && Get(x.counts, rel) < entries[rel]
  }

  /**
   * An update leaves no stale entry whatever was renamed. Without renames it
   * changes nothing when run again, and leaves over budget exactly the files
   * whose count passes both their entry and their ceiling.
   */
  lemma {:induction false} UpdateSettles(x: Pass, entries: Counts, after: Counts, again: Counts)
    requires IsUpdated(x, after, entries)
    ensures forall rel :: !Stale(x, after, rel)
    ensures x.renamed == map[] && IsUpdated(x.(allow := after), again, after) ==> again == after
    ensures forall rel :: Owned(x.dirs, rel) ==>
      (Get(x.counts, rel) > Get(after, rel) <==> Get(x.counts, rel) > Get(entries, rel) && Get(x.counts, rel) > Ceiling(x, rel))
  {
    forall rel
      ensures !Stale(x, after, rel)
      ensures Owned(x.dirs, rel) ==>
        (Get(x.counts, rel) > Get(after, rel) <==> Get(x.counts, rel) > Get(entries, rel) && Get(x.counts, rel) > Ceiling(x, rel))
    {
      assert EntryUpdated(x.dirs, after, entries, rel, Wanted(x, entries, rel));
    }
    if x.renamed == map[] && IsUpdated(x.(allow := after), again, after) {
      forall rel ensures (rel in again <==> rel in after) && Get(again, rel) == Get(after, rel) {
        AgainTheSame(x, entries, after, again, rel);
      }
    }
  }

  /** An update removes an entry exactly when its file wants none and it is not listed at zero already. */
  lemma RemovedExactly(x: Pass, entries: Counts, after: Counts, rel: string)
    requires IsUpdated(x, after, entries) && rel in entries && Owned(x.dirs, rel)
    ensures rel !in after <==> Wanted(x, entries, rel) == 0 && entries[rel] > 0
  {
  }

  /** An entry listed at zero stays. */
  lemma {:induction false} ZeroStays()
    ensures
      var x := Pass(map["c/a.rs" := 0], map[], map[], map[], None, map[], {"c"});
      Owned(x.dirs, "c/a.rs") && forall after :: IsUpdated(x, after, x.allow) ==> "c/a.rs" in after
  {
    var x := Pass(map["c/a.rs" := 0], map[], map[], map[], None, map[], {"c"});
    assert Owned(x.dirs, "c/a.rs") by { assert "c" in x.dirs && StartsWith("c/a.rs", "c" + "/"); }
    forall after | IsUpdated(x, after, x.allow) ensures "c/a.rs" in after {
      RemovedExactly(x, x.allow, after, "c/a.rs");
    }
  }

  lemma AgainTheSame(x: Pass, entries: Counts, after: Counts, again: Counts, rel: string)
    requires x.renamed == map[]
    requires EntryUpdated(x.dirs, after, entries, rel, Wanted(x, entries, rel))
    requires EntryUpdated(x.dirs, again, after, rel, Wanted(x.(allow := after), after, rel))
    ensures (rel in again <==> rel in after) && Get(again, rel) == Get(after, rel)
  {
  }
}
