/** Whole runs: an index is built, changed, and searched. */
module IsamRuns {
  import opened IsamModel
  import opened IsamContents
  import opened IsamChains
  import opened IsamInsertion
  import opened IsamRemoval
  import opened IsamBuild
  import opened IsamIndex

  /** Builds an index, and then adds to it. */
  method BuildAdd(data: seq<Pair>, sorted: seq<Record>, adds: seq<Pair>) returns (index: Isam, built: bool)
    requires Ascending(sorted) && multiset(sorted) == multiset(AsRecords(data))
    ensures built <==> |data| >= MAX_RECORDS
    ensures if built then index.Built() && multiset(index.history) == multiset(data + adds) else index.root == NONE
  {
    hide Ascending, AsRecords, IndexOk, StoreOk, Whole, StoredIn, Grown, PagesOn, PagesOk, Route, EmptyHeads, ContentsOf,
         PagesTo, SepsOf;
    index := new Isam();
    built := index.BulkInsert(data, sorted);
    if !built {
      return;
    }
    ghost var first := index.history;
    var i := 0;
    while i < |adds|
      invariant 0 <= i <= |adds| && index.Built() && index.history == first + adds[..i]
      invariant fresh(index)
    {
      assert adds[..i + 1] == adds[..i] + [adds[i]];
      var _ := index.Add(adds[i].0, adds[i].1);
      i := i + 1;
    }
    assert adds[..i] == adds;
  }

  /** After any build and any additions, a search for a range finds exactly what
      was given under keys in the range. */
  method BuildAddSearch(data: seq<Pair>, sorted: seq<Record>, adds: seq<Pair>, b: int, e: int)
    returns (res: Response)
    requires Ascending(sorted) && multiset(sorted) == multiset(AsRecords(data))
    ensures res.Found? <==> |data| >= MAX_RECORDS
    ensures res.Found? ==> multiset(res.records) == multiset(InRange(data + adds, b, e))
  {
    hide Ascending, AsRecords, IndexOk, StoreOk, Whole, StoredIn, InRange, EmptyHeads, ContentsOf, Visible, Hides, Concat,
         Pairs;
    var index, built := BuildAdd(data, sorted, adds);
    res := index.RangeSearch(b, e);
    if built {
      InRangePermuted(index.history, data + adds, b, e);
    }
  }

  /** After any build and any additions, a search for one key finds something
      exactly when a position was given under it, and only such positions. */
  method BuildAddFind(data: seq<Pair>, sorted: seq<Record>, adds: seq<Pair>, key: int) returns (res: Response)
    requires Ascending(sorted) && multiset(sorted) == multiset(AsRecords(data))
    ensures res.Found? <==> |data| >= MAX_RECORDS
    ensures res.Found? ==> (res.records != [] <==> exists pos :: (key, pos) in data + adds)
    ensures res.Found? ==> multiset(res.records) <= multiset(InRange(data + adds, key, key))
  {
    hide Ascending, AsRecords, IndexOk, StoreOk, Whole, StoredIn, InRange, ContentsOf, Concat, Pairs, Matching, Route, Has,
         AtMostOne;
    var index, built := BuildAdd(data, sorted, adds);
    if built {
      index.BuiltIsReadable();
      InRangePermuted(index.history, data + adds, key, key);
      forall pos ensures (key, pos) in index.history <==> (key, pos) in data + adds {
        assert (key, pos) in multiset(index.history) <==> (key, pos) in multiset(data + adds);
      }
    }
    res := index.Search(key);
  }

  /** After a build from records with different keys, a descent for one of the
      first 81 gets to the page it was put on. */
  method BuildDescend(data: seq<Pair>, sorted: seq<Record>, i: nat, orEqual: bool) returns (c: nat)
    requires |data| >= MAX_RECORDS && i < MAX_RECORDS
    requires Increasing(sorted) && multiset(sorted) == multiset(AsRecords(data))
    ensures c == if !orEqual && i % N == 0 && i > 0 then i / N - 1 else i / N
  {
    hide AsRecords, IndexOk, StoreOk, Whole, StoredIn, PagesTo, SepsOf, Between;
    var index := new Isam();
    assert Ascending(sorted);
    var built := index.BulkInsert(data, sorted);
    index.Start(sorted[i].key, orEqual);
    c := index.Descend(index.root, sorted[i].key, orEqual);
    DescentOfKey(sorted, i, orEqual, c);
  }

  // Runs with removals.

  datatype Change = Adding(key: int, pos: int) | Removing(key: int)

  function AddedBy(changes: seq<Change>): seq<Pair> {
    if changes == [] then []
    else
      var last := changes[|changes| - 1];
      AddedBy(changes[..|changes| - 1]) + if last.Adding? then [(last.key, last.pos)] else []
  }

  method Apply(index: Isam, change: Change)
    requires index.root != NONE && index.Readable()
    modifies index
    ensures index.root == old(index.root) && index.Readable()
    ensures StoredIn(index.dt, index.dup, index.chains)
            <= old(StoredIn(index.dt, index.dup, index.chains)) + multiset(AddedBy([change]))
  {
    hide IndexOk, StoreOk, Whole, StoredIn, Grown, PagesOn, PagesOk, Route, EmptyHeads, ContentsOf, Left, Reported, Remains,
         Loses, Matching, Others, Has, Empties;
    assert [change][..0] == [];
    match change {
      case Adding(key, pos) =>
        var _ := index.Add(key, pos);
      case Removing(key) =>
        var _ := index.Remove(key);
    }
  }

  lemma {:induction false} AddedByMore(changes: seq<Change>, i: nat)
    requires i < |changes|
    ensures AddedBy(changes[..i + 1]) == AddedBy(changes[..i]) + AddedBy([changes[i]])
  {
    assert changes[..i + 1][..i] == changes[..i] && [changes[i]][..0] == [];
  }

  /** After any build and any additions and removals, a search for a range finds
      nothing that was not given, and nothing more often than it was. */
  method BuildChangeSearch(data: seq<Pair>, sorted: seq<Record>, changes: seq<Change>, b: int, e: int)
    returns (res: Response)
    requires Ascending(sorted) && multiset(sorted) == multiset(AsRecords(data))
    ensures res.Found? <==> |data| >= MAX_RECORDS
    ensures res.Found? ==> multiset(res.records) <= multiset(InRange(data + AddedBy(changes), b, e))
  {
    hide Ascending, AsRecords, IndexOk, StoreOk, Whole, StoredIn, Grown, PagesOn, PagesOk, Route, EmptyHeads, ContentsOf,
         PagesTo, SepsOf, InRange, Visible, Hides, Concat, Pairs, AddedBy;
    var index := new Isam();
    var built := index.BulkInsert(data, sorted);
    if !built {
      res := index.RangeSearch(b, e);
      return;
    }
    StartsFrom(index, data);
    var i := 0;
    while i < |changes|
      invariant 0 <= i <= |changes| && index.root != NONE && index.Readable() && fresh(index)
      invariant StoredIn(index.dt, index.dup, index.chains) <= multiset(data + AddedBy(changes[..i]))
    {
      AddedByMore(changes, i);
      Apply(index, changes[i]);
      assert data + AddedBy(changes[..i + 1]) == data + AddedBy(changes[..i]) + AddedBy([changes[i]]);
      i := i + 1;
    }
    assert changes[..i] == changes;
    StoredReference(index, data + AddedBy(changes), b, e);
    res := index.RangeSearch(b, e);
  }

  lemma {:induction false} StartsFrom(index: Isam, data: seq<Pair>)
    requires index.Built() && multiset(index.history) == multiset(data)
    ensures index.root != NONE && index.Readable()
    ensures StoredIn(index.dt, index.dup, index.chains) <= multiset(data + AddedBy([]))
  {
  }

  lemma {:induction false} StoredReference(index: Isam, given: seq<Pair>, b: int, e: int)
    requires StoredIn(index.dt, index.dup, index.chains) <= multiset(given)
    ensures multiset(index.Reference(b, e)) <= multiset(InRange(given, b, e))
  {
    hide InRange, Pairs, Concat, ContentsOf;
    InRangeLess(Pairs(index.dup, Concat(index.Contents())), given, b, e);
  }
}
