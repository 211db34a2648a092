/**
 * Tree manifests: the records of a directory walk, the same records from a
 * captured flat list, and their encoding.
 */
module Manifest {
  import Common
  import opened StorageKeys
  import opened Ordering

  datatype Entry = Dir(name: string, children: seq<Entry>) | File(name: string, sizeBytes: nat, checksum: string)

  /** One manifest line, before it is written out; `path` is the relative key's names. */
  datatype Rec = D(path: seq<string>) | F(path: seq<string>, sizeBytes: nat, checksum: string)

  /** Siblings have different names, and a name is a real file name. */
  predicate Proper(entries: seq<Entry>) {
    && (forall i, j :: 0 <= i < j < |entries| ==> entries[i].name != entries[j].name)
    && (forall i :: 0 <= i < |entries| ==>
          && entries[i].name != "" && Plain(entries[i].name)
          && (entries[i].Dir? ==> Proper(entries[i].children)))
  }

  function Size(entries: seq<Entry>): nat {
    if entries == [] then 0 else EntrySize(entries[0]) + Size(entries[1..])
  }

  function EntrySize(entry: Entry): nat {
    1 + if entry.Dir? then Size(entry.children) else 0
  }

  // -------------------------------------------------------------------------- the walk

  function Insert(entry: Entry, sorted: seq<Entry>): (r: seq<Entry>)
    ensures Size(r) == EntrySize(entry) + Size(sorted)
  {
    if sorted == [] || Less(entry.name, sorted[0].name) then
      (assert ([entry] + sorted)[1..] == sorted; [entry] + sorted)
    else
      var rest := Insert(entry, sorted[1..]);
      assert ([sorted[0]] + rest)[1..] == rest;
      [sorted[0]] + rest
  }

  /** The entries of one directory, sorted by name. */
  function ByName(entries: seq<Entry>): (r: seq<Entry>)
    ensures Size(r) == Size(entries)
  {
    if entries == [] then [] else Insert(entries[0], ByName(entries[1..]))
  }

  function Own(entry: Entry, prefix: seq<string>): Rec {
    if entry.Dir? then D(prefix + [entry.name]) else F(prefix + [entry.name], entry.sizeBytes, entry.checksum)
  }

  /** `visit`: the records below one directory. */
  function Walk(entries: seq<Entry>, prefix: seq<string>): seq<Rec>
    decreases Size(entries), 1
  {
    WalkEach(ByName(entries), prefix)
  }

  function WalkEach(entries: seq<Entry>, prefix: seq<string>): seq<Rec>
    decreases Size(entries), 0
  {
    if entries == [] then []
    else
      assert Size(entries) == EntrySize(entries[0]) + Size(entries[1..]);
      [Own(entries[0], prefix)]
      + (if entries[0].Dir? then Walk(entries[0].children, prefix + [entries[0].name]) else [])
      + WalkEach(entries[1..], prefix)
  }

  /** The same records in whatever order the entries come. */
  function Flat(entries: seq<Entry>, prefix: seq<string>): seq<Rec>
    decreases entries
  {
    if entries == [] then [] else FlatOne(entries[0], prefix) + Flat(entries[1..], prefix)
  }

  function FlatOne(entry: Entry, prefix: seq<string>): seq<Rec>
    decreases entry
  {
    [Own(entry, prefix)] + if entry.Dir? then Flat(entry.children, prefix + [entry.name]) else []
  }

  /** The walk as the code does it: one growing list, one call for each subdirectory. */
  method Visit(entries: seq<Entry>, prefix: seq<string>) returns (records: seq<Rec>)
    ensures records == Walk(entries, prefix)
    decreases Size(entries)
  {
    var sorted := ByName(entries);
    records := [];
    var i := 0;
    ghost var whole := Walk(entries, prefix);
    WalkIsEach(entries, prefix);
    hide WalkEach, Walk, Size, ByName;
    while i < |sorted|
      invariant 0 <= i <= |sorted|
      invariant records + WalkEach(sorted[i..], prefix) == whole
    {
      NextEntry(sorted, i, prefix);
      ghost var rest := WalkEach(sorted[i + 1..], prefix);
      var found := [Own(sorted[i], prefix)];
      if sorted[i].Dir? {
        var inner := Visit(sorted[i].children, prefix + [sorted[i].name]);
        found := found + inner;
      }
      Regroup(records, found, rest);
      records := records + found;
      i := i + 1;
    }
    NothingToWalk(sorted, prefix);
  }

  lemma WalkIsEach(entries: seq<Entry>, prefix: seq<string>)
    ensures Walk(entries, prefix) == [] + WalkEach(ByName(entries)[0..], prefix)
  {
    assert ByName(entries)[0..] == ByName(entries);
  }

  lemma NothingToWalk(sorted: seq<Entry>, prefix: seq<string>)
    ensures WalkEach(sorted[|sorted|..], prefix) == []
  {
  }

  lemma Regroup(a: seq<Rec>, b: seq<Rec>, c: seq<Rec>)
    ensures a + (b + c) == (a + b) + c
  {
  }

  lemma NextEntry(sorted: seq<Entry>, i: nat, prefix: seq<string>)
    requires i < |sorted|
    ensures sorted[i].Dir? ==> Size(sorted[i].children) < Size(sorted)
    ensures WalkEach(sorted[i..], prefix) ==
            [Own(sorted[i], prefix)]
            + (if sorted[i].Dir? then Walk(sorted[i].children, prefix + [sorted[i].name]) else [])
            + WalkEach(sorted[i + 1..], prefix)
  {
    SizeOfOne(sorted, i);
    assert sorted[i..][1..] == sorted[i + 1..];
  }

  lemma {:induction false} SizeOfOne(entries: seq<Entry>, i: nat)
    requires i < |entries|
    ensures EntrySize(entries[i]) <= Size(entries)
  {
    if i != 0 { SizeOfOne(entries[1..], i - 1); }
  }

  // ------------------------------------------------------------------ the captured list

  function InsertRec(record: Rec, sorted: seq<Rec>): seq<Rec> {
    if sorted == [] || !Before(sorted[0].path, record.path) then [record] + sorted
    else [sorted[0]] + InsertRec(record, sorted[1..])
  }

  /** The flat list sorted by key. */
  function ByKey(records: seq<Rec>): seq<Rec> {
    if records == [] then [] else InsertRec(records[0], ByKey(records[1..]))
  }

  // ------------------------------------------------------------- same records, same order

  lemma {:induction false} InsertKeeps(entry: Entry, sorted: seq<Entry>, prefix: seq<string>)
    ensures multiset(Flat(Insert(entry, sorted), prefix)) ==
            multiset(FlatOne(entry, prefix)) + multiset(Flat(sorted, prefix))
    decreases sorted
  {
    hide FlatOne;
    if sorted == [] || Less(entry.name, sorted[0].name) {
      assert ([entry] + sorted)[1..] == sorted;
    } else {
      var rest := Insert(entry, sorted[1..]);
      InsertKeeps(entry, sorted[1..], prefix);
      assert ([sorted[0]] + rest)[1..] == rest;
    }
  }

  lemma {:induction false} ByNameKeeps(entries: seq<Entry>, prefix: seq<string>)
    ensures multiset(Flat(ByName(entries), prefix)) == multiset(Flat(entries, prefix))
  {
    hide FlatOne;
    if entries != [] {
      ByNameKeeps(entries[1..], prefix);
      InsertKeeps(entries[0], ByName(entries[1..]), prefix);
    }
  }

  /** The walk visits every entry once. */
  lemma {:induction false} WalkKeeps(entries: seq<Entry>, prefix: seq<string>)
    ensures multiset(Walk(entries, prefix)) == multiset(Flat(entries, prefix))
    decreases Size(entries), 1
  {
    WalkEachKeeps(ByName(entries), prefix);
    ByNameKeeps(entries, prefix);
  }

  lemma {:induction false} WalkEachKeeps(entries: seq<Entry>, prefix: seq<string>)
    ensures multiset(WalkEach(entries, prefix)) == multiset(Flat(entries, prefix))
    decreases Size(entries), 0
  {
    if entries != [] {
      assert Size(entries) == EntrySize(entries[0]) + Size(entries[1..]);
      if entries[0].Dir? { WalkKeeps(entries[0].children, prefix + [entries[0].name]); }
      WalkEachKeeps(entries[1..], prefix);
    }
  }

  /** In the order of the keys, and no key twice. */
  predicate Ascending(records: seq<Rec>) {
    forall i, j :: 0 <= i < j < |records| ==> Before(records[i].path, records[j].path)
  }

  /** Every record lies below `prefix`, at or after the name `from`. */
  predicate Below(records: seq<Rec>, prefix: seq<string>, from: string) {
    forall i :: 0 <= i < |records| ==> PathBelow(records[i].path, prefix, from)
  }

  predicate PathBelow(path: seq<string>, prefix: seq<string>, from: string) {
    |prefix| < |path| && path[..|prefix|] == prefix && (path[|prefix|] == from || Less(from, path[|prefix|]))
  }

  predicate Sorted(entries: seq<Entry>) {
    forall i, j :: 0 <= i < j < |entries| ==> Less(entries[i].name, entries[j].name)
  }

  lemma {:induction false} InsertSorts(entry: Entry, sorted: seq<Entry>)
    requires Sorted(sorted) && forall i :: 0 <= i < |sorted| ==> sorted[i].name != entry.name
    ensures Sorted(Insert(entry, sorted))
    ensures forall e <- Insert(entry, sorted) :: e == entry || e in sorted
    decreases sorted
  {
    if sorted != [] && !Less(entry.name, sorted[0].name) {
      LessIsTotal(entry.name, sorted[0].name);
      InsertSorts(entry, sorted[1..]);
      var rest := Insert(entry, sorted[1..]);
      forall i | 0 <= i < |rest|
        ensures Less(sorted[0].name, rest[i].name)
      {
        assert rest[i] == entry || rest[i] in sorted[1..];
      }
    } else if sorted != [] {
      forall i | 0 < i < |sorted|
        ensures Less(entry.name, sorted[i].name)
      {
        LessIsTransitive(entry.name, sorted[0].name, sorted[i].name);
      }
    }
  }

  lemma {:induction false} ByNameSorts(entries: seq<Entry>)
    requires Proper(entries)
    ensures Sorted(ByName(entries))
    ensures forall e <- ByName(entries) :: e in entries
  {
    if entries != [] {
      ByNameSorts(entries[1..]);
      forall e <- ByName(entries[1..])
        ensures e.name != entries[0].name
      {
        assert e in entries[1..];
      }
      InsertSorts(entries[0], ByName(entries[1..]));
    }
  }

  /** A directory's own record comes before those below it, and those before the next sibling's. */
  lemma {:induction false} WalkAscends(entries: seq<Entry>, prefix: seq<string>)
    requires Proper(entries)
    ensures Ascending(Walk(entries, prefix)) && Below(Walk(entries, prefix), prefix, "")
    decreases Size(entries), 1
  {
    ByNameSorts(entries);
    var sorted := ByName(entries);
    WalkEachAscends(sorted, prefix);
    forall i | 0 <= i < |Walk(entries, prefix)|
      ensures PathBelow(Walk(entries, prefix)[i].path, prefix, "")
    {
      if sorted != [] { assert PathBelow(Walk(entries, prefix)[i].path, prefix, sorted[0].name); }
    }
  }

  predicate AllProper(entries: seq<Entry>) {
    forall e <- entries :: e.Dir? ==> Proper(e.children)
  }

  lemma {:induction false} WalkEachAscends(entries: seq<Entry>, prefix: seq<string>)
    requires Sorted(entries) && AllProper(entries)
    ensures Ascending(WalkEach(entries, prefix))
    ensures if entries == [] then WalkEach(entries, prefix) == []
            else Below(WalkEach(entries, prefix), prefix, entries[0].name)
    decreases Size(entries), 0
  {
    if entries != [] {
      assert Size(entries) == EntrySize(entries[0]) + Size(entries[1..]);
      var e, at := entries[0], prefix + [entries[0].name];
      var inner := if e.Dir? then Walk(e.children, at) else [];
      var rest := WalkEach(entries[1..], prefix);
      if e.Dir? { WalkAscends(e.children, at); }
      WalkEachAscends(entries[1..], prefix);
      Parts(e, prefix, inner, rest, if |entries| > 1 then entries[1].name else "");
    }
  }

  lemma Parts(e: Entry, prefix: seq<string>, inner: seq<Rec>, rest: seq<Rec>, next: string)
    requires Ascending(inner) && Below(inner, prefix + [e.name], "") && Ascending(rest)
    requires rest == [] || (Below(rest, prefix, next) && Less(e.name, next))
    ensures Ascending([Own(e, prefix)] + inner + rest) && Below([Own(e, prefix)] + inner + rest, prefix, e.name)
  {
    var at := prefix + [e.name];
    var all := [Own(e, prefix)] + inner + rest;
    forall i | 0 <= i < |all|
      ensures PathBelow(all[i].path, prefix, e.name)
      ensures i <= |inner| ==> |at| <= |all[i].path| && all[i].path[..|at|] == at && (|all[i].path| == |at| ==> i == 0)
      ensures i > |inner| ==> Less(e.name, all[i].path[|prefix|])
    {
      if 0 < i <= |inner| {
        assert PathBelow(inner[i - 1].path, at, "");
        assert all[i].path[|prefix|] == at[|prefix|];
        assert all[i].path[..|prefix|] == at[..|prefix|];
      } else if i > |inner| {
        var p := rest[i - 1 - |inner|].path;
        assert PathBelow(p, prefix, next);
        if p[|prefix|] != next { LessIsTransitive(e.name, next, p[|prefix|]); }
      }
    }
    forall i, j | 0 <= i < j < |all|
      ensures Before(all[i].path, all[j].path)
    {
      if i == 0 && j <= |inner| { BeginsBefore(at, all[j].path); }
      else if i <= |inner| < j { NameBefore(prefix, all[i].path, all[j].path); }
    }
  }

  lemma BeginsBefore(a: seq<string>, b: seq<string>)
    requires |a| < |b| && b[..|a|] == a
    ensures Before(a, b)
  {
    assert a + [] == a && a + b[|a|..] == b;
    BeforeUnder(a, [], b[|a|..]);
  }

  lemma NameBefore(prefix: seq<string>, a: seq<string>, b: seq<string>)
    requires |prefix| < |a| && |prefix| < |b| && a[..|prefix|] == prefix == b[..|prefix|]
    requires Less(a[|prefix|], b[|prefix|])
    ensures Before(a, b)
  {
    LessIsTotal(a[|prefix|], b[|prefix|]);
    assert prefix + a[|prefix|..] == a && prefix + b[|prefix|..] == b;
    BeforeUnder(prefix, a[|prefix|..], b[|prefix|..]);
  }

  // ------------------------------------------------------------------ the sorted list

  /** In the order of the keys, equal ones allowed. */
  predicate Ordered(records: seq<Rec>) {
    forall i, j :: 0 <= i < j < |records| ==> !Before(records[j].path, records[i].path)
  }

  lemma {:induction false} InsertRecSorts(record: Rec, sorted: seq<Rec>)
    requires Ordered(sorted)
    ensures Ordered(InsertRec(record, sorted))
    ensures multiset(InsertRec(record, sorted)) == multiset{record} + multiset(sorted)
    decreases sorted
  {
    if sorted == [] || !Before(sorted[0].path, record.path) {
      PutsFirst(record, sorted);
    } else {
      InsertRecSorts(record, sorted[1..]);
      assert sorted == [sorted[0]] + sorted[1..];
      PutsAfter(record, sorted, InsertRec(record, sorted[1..]));
    }
  }

  lemma PutsFirst(record: Rec, sorted: seq<Rec>)
    requires Ordered(sorted) && (sorted == [] || !Before(sorted[0].path, record.path))
    ensures Ordered([record] + sorted)
  {
    forall i | 0 <= i < |sorted|
      ensures !Before(sorted[i].path, record.path)
    {
      if Before(sorted[i].path, record.path) {
        BeforeIsTotal(sorted[0].path, sorted[i].path);
        if sorted[0].path != sorted[i].path { BeforeIsTransitive(sorted[0].path, sorted[i].path, record.path); }
      }
    }
  }

  lemma PutsAfter(record: Rec, sorted: seq<Rec>, rest: seq<Rec>)
    requires Ordered(sorted) && sorted != [] && Before(sorted[0].path, record.path) && Ordered(rest)
    requires multiset(rest) == multiset{record} + multiset(sorted[1..])
    ensures Ordered([sorted[0]] + rest)
  {
    forall i | 0 <= i < |rest|
      ensures !Before(rest[i].path, sorted[0].path)
    {
      assert rest[i] in multiset(rest);
      assert rest[i] == record || rest[i] in sorted[1..];
      BeforeIsTotal(sorted[0].path, record.path);
    }
  }

  lemma {:induction false} ByKeySorts(records: seq<Rec>)
    ensures Ordered(ByKey(records)) && multiset(ByKey(records)) == multiset(records)
  {
    if records != [] {
      ByKeySorts(records[1..]);
      InsertRecSorts(records[0], ByKey(records[1..]));
      assert records == [records[0]] + records[1..];
    }
  }

  lemma SameFirst(a: seq<Rec>, b: seq<Rec>, i: nat, j: nat)
    requires Ordered(a) && Ascending(b) && i < |b| && j < |a| && b[i] == a[0] && a[j] == b[0]
    ensures a[0] == b[0]
  {
    BeforeIsTotal(a[0].path, b[0].path);
  }

  /** There is one ordered list of records with different keys. */
  lemma {:induction false} OneOrder(a: seq<Rec>, b: seq<Rec>)
    requires Ordered(a) && Ascending(b) && multiset(a) == multiset(b)
    ensures a == b
  {
    if a == [] {
      assert |b| == |multiset(b)| == |multiset(a)|;
    } else {
      assert a[0] in multiset(a);
      assert a[0] in b;
      assert b[0] in multiset(b);
      assert b[0] in a;
      var i :| 0 <= i < |b| && b[i] == a[0];
      var j :| 0 <= j < |a| && a[j] == b[0];
      SameFirst(a, b, i, j);
      TailsMeet(a, b);
      OneOrder(a[1..], b[1..]);
    }
  }

  lemma TailsMeet(a: seq<Rec>, b: seq<Rec>)
    requires a != [] && b != [] && a[0] == b[0] && multiset(a) == multiset(b)
    ensures multiset(a[1..]) == multiset(b[1..])
  {
    assert a == [a[0]] + a[1..] && b == [b[0]] + b[1..];
    assert multiset(a[1..]) == multiset(a) - multiset{a[0]};
    assert multiset(b[1..]) == multiset(b) - multiset{b[0]};
  }

  /**
   * The captured manifest is the walked one: whatever order the flat entries of
   * a tree come in, sorting them by key gives the records of the walk.
   */
  lemma CapturedIsWalked(entries: seq<Entry>, captured: seq<Rec>)
    requires Proper(entries) && multiset(captured) == multiset(Flat(entries, []))
    ensures ByKey(captured) == Walk(entries, [])
  {
    ByKeySorts(captured);
    WalkKeeps(entries, []);
    WalkAscends(entries, []);
    OneOrder(ByKey(captured), Walk(entries, []));
  }

  // ------------------------------------------------------------------ what the records tell

  datatype Found = FoundDir | FoundFile(sizeBytes: nat, checksum: string)

  /** What is at a path of the tree, going down by names. */
  function NodeAt(entries: seq<Entry>, path: seq<string>): Common.Option<Found>
    decreases entries
  {
    if entries == [] || path == [] then Common.None
    else
      var e := entries[0];
      if e.name != path[0] then NodeAt(entries[1..], path)
      else if |path| > 1 then (if e.Dir? then NodeAt(e.children, path[1..]) else Common.None)
      else Common.Some(if e.Dir? then FoundDir else FoundFile(e.sizeBytes, e.checksum))
  }

  function Tells(record: Rec): Found {
    match record
    case D(_) => FoundDir
    case F(_, size, checksum) => FoundFile(size, checksum)
  }

  lemma {:induction false} NodeHasName(entries: seq<Entry>, path: seq<string>)
    requires NodeAt(entries, path).Some?
    ensures path != [] && exists i :: 0 <= i < |entries| && entries[i].name == path[0]
    decreases entries
  {
    if entries[0].name != path[0] {
      NodeHasName(entries[1..], path);
      var i :| 0 <= i < |entries[1..]| && entries[1..][i].name == path[0];
      assert entries[i + 1].name == path[0];
    }
  }

  /** The record is one of a path below the prefix, and tells what the tree has there. */
  predicate IsToldBy(entries: seq<Entry>, prefix: seq<string>, record: Rec) {
    && |prefix| < |record.path| && record.path[..|prefix|] == prefix
    && NodeAt(entries, record.path[|prefix|..]) == Common.Some(Tells(record))
  }

  /** The records are exactly those that tell what the tree has where. */
  lemma {:induction false} RecordsTell(entries: seq<Entry>, prefix: seq<string>, record: Rec)
    requires Proper(entries)
    ensures record in Flat(entries, prefix) <==> IsToldBy(entries, prefix, record)
    decreases entries
  {
    if entries != [] {
      var e, rest := entries[0], entries[1..];
      RecordsTell(rest, prefix, record);
      OneTells(e, prefix, record);
      if e.Dir? { RecordsTell(e.children, prefix + [e.name], record); }
      if IsToldBy(rest, prefix, record) {
        NodeHasName(rest, record.path[|prefix|..]);
        var i :| 0 <= i < |rest| && rest[i].name == record.path[|prefix|];
        assert entries[i + 1] == rest[i];
      }
    }
  }

  lemma OneTells(e: Entry, prefix: seq<string>, record: Rec)
    ensures var at := prefix + [e.name];
            && (|at| <= |record.path| && record.path[..|at|] == at <==>
                  |prefix| < |record.path| && record.path[..|prefix|] == prefix && record.path[|prefix|] == e.name)
            && (|at| <= |record.path| ==> record.path[|prefix|..][1..] == record.path[|at|..])
            && (record == Own(e, prefix) <==>
                  record.path == at && Tells(record) == if e.Dir? then FoundDir else FoundFile(e.sizeBytes, e.checksum))
            && (record.path == at <==> |record.path| == |at| && record.path[..|at|] == at)
  {
    var at := prefix + [e.name];
    if |at| <= |record.path| {
      assert record.path[..|at|] == record.path[..|prefix|] + [record.path[|prefix|]];
    }
    if |record.path| == |at| { assert record.path[..|at|] == record.path; }
  }

  /** Trees with the same records have the same at every path. */
  lemma SameRecordsSameTree(a: seq<Entry>, b: seq<Entry>, path: seq<string>)
    requires Proper(a) && Proper(b) && multiset(Flat(a, [])) == multiset(Flat(b, []))
    ensures NodeAt(a, path) == NodeAt(b, path)
  {
    OneHasTheOther(a, b, path);
    OneHasTheOther(b, a, path);
  }

  lemma OneHasTheOther(a: seq<Entry>, b: seq<Entry>, path: seq<string>)
    requires Proper(a) && Proper(b) && multiset(Flat(a, [])) == multiset(Flat(b, []))
    ensures NodeAt(a, path).Some? ==> NodeAt(b, path) == NodeAt(a, path)
  {
    if NodeAt(a, path).Some? {
      NodeHasName(a, path);
      var record := match NodeAt(a, path).value
        case FoundDir => D(path)
        case FoundFile(size, checksum) => F(path, size, checksum);
      assert record.path[0..] == path;
      RecordsTell(a, [], record);
      assert record in multiset(Flat(a, []));
      assert record in Flat(b, []);
      RecordsTell(b, [], record);
    }
  }
}
