/** Runs in which records that were stored are not found again. */
module IsamLosses {
  import Sequences
  import opened IsamModel
  import opened IsamContents
  import opened IsamChains
  import opened IsamPages
  import opened IsamInsertion
  import opened IsamRemoval
  import opened IsamBuild
  import opened IsamIndex

  // Pages after a build and after insertions.

  lemma {:induction false} FreshPage(dt: seq<Page>, sorted: seq<Record>, c: nat)
    requires |sorted| >= MAX_RECORDS && PagesTo(dt, sorted, PRIMARY) && c < PRIMARY
    ensures PagesOk(dt, [c]) && PagesOn(dt, [c]) == [sorted[N * c..N * c + N]]
    ensures EmptyHeads(dt) == {}
  {
    assert Live(dt[c]) == sorted[N * c..N * c + N];
  }

  predicate LastBelow(page: seq<Record>, key: int) {
    page != [] && page[|page| - 1].key < key
  }

  lemma {:induction false} ReachedAt(dt: seq<Page>, chain: seq<int>, key: int, k: nat, m: nat)
    requires PagesOk(dt, chain) && k <= m <= |chain|
    requires forall i :: k <= i < m ==> LastBelow(PagesOn(dt, chain)[i], key)
    requires m < |chain| ==> !LastBelow(PagesOn(dt, chain)[m], key)
    ensures Reached(dt, chain, k, key) == m
    decreases m - k
  {
    if k < m {
      assert LastBelow(PagesOn(dt, chain)[k], key);
      ReachedAt(dt, chain, key, k + 1, m);
    }
  }

  predicate AllBelow(rs: seq<Record>, key: int) {
    forall k :: 0 <= k < |rs| ==> rs[k].key < key
  }

  lemma {:induction false} AmongBelow(was: seq<Record>, r: Record, now: seq<Record>, key: int)
    requires Among(was, r, now) && AllBelow(was, key) && r.key < key
    ensures AllBelow(now, key) && |now| == |was| + 1
    ensures Has(now, r.key) && forall other :: Has(was, other) ==> Has(now, other)
  {
    var j :| 0 <= j <= |was| && now == was[..j] + [r] + was[j..];
    assert now[j] == r;
    forall other | Has(was, other) ensures Has(now, other) {
      var k :| 0 <= k < |was| && was[k].key == other;
      assert now[if k < j then k else k + 1] == was[k];
    }
  }

  /** One full page, and a record whose key is above its last. */
  lemma {:induction false} GrownPast(dt: seq<Page>, chain: seq<int>, r: Record, d: nat, now: seq<seq<Record>>)
    requires PagesOk(dt, chain) && |chain| == 1 && Grown(dt, chain, r, d, now)
    requires var was := PagesOn(dt, chain); |was[0]| == N && LastBelow(was[0], r.key)
    ensures now == PagesOn(dt, chain) + [[r]]
  {
    ReachedAt(dt, chain, r.key, 0, 1);
  }

  /** Two pages, and a record whose key is above all their keys. */
  lemma {:induction false} GrownAbove(dt: seq<Page>, chain: seq<int>, r: Record, d: nat, now: seq<seq<Record>>, key: int)
    requires PagesOk(dt, chain) && |chain| == 2 && Grown(dt, chain, r, d, now) && r.key < key
    requires var was := PagesOn(dt, chain);
             was[0] != [] && AllBelow(was[0], r.key) && was[1] != [] && AllBelow(was[1], r.key)
    ensures var was := PagesOn(dt, chain);
            if |was[1]| == N then now == was + [[r]]
            else
              && |now| == 2 && now[0] == was[0] && |now[1]| == |was[1]| + 1 && AllBelow(now[1], key)
              && forall other :: Has(was[1], other) ==> Has(now[1], other)
  {
    var was := PagesOn(dt, chain);
    ReachedAt(dt, chain, r.key, 0, 2);
    if |was[1]| != N {
      assert AllBelow(was[1], key);
      AmongBelow(was[1], r, now[1], key);
    }
  }

  lemma {:induction false} ChainPagesAre(dt: seq<Page>, chains: seq<seq<int>>, c: nat)
    requires ChainsOk(dt, chains) && c < |chains|
    ensures |ContentsOf(dt, chains)| == |chains| && PagesOk(dt, chains[c])
    ensures ContentsOf(dt, chains)[c] == Concat(PagesOn(dt, chains[c]))
  {
    ChainPages(dt, chains, c);
    PagesAre(dt, chains[c]);
  }

  lemma {:induction false} RouteAbove(sorted: seq<Record>, key: int)
    requires |sorted| == MAX_RECORDS && Increasing(sorted) && sorted[MAX_RECORDS - 1].key < key
    ensures Route(SepsOf(sorted), key) == PRIMARY - 1
  {
    var seps := SepsOf(sorted);
    assert seps[PRIMARY - 2] == sorted[N * (PRIMARY - 1)].key < key;
    RouteIs(seps, key, PRIMARY - 1);
  }

  lemma {:induction false} RouteBelow(sorted: seq<Record>, key: int)
    requires |sorted| == MAX_RECORDS && Increasing(sorted) && key < sorted[N].key
    ensures Route(SepsOf(sorted), key) == 0
  {
    assert SepsOf(sorted)[0] == sorted[N].key;
  }

  // A page lost.

  /** The last chain has two pages, the first of which a build has written, and all
      keys on the second are below `key`. */
  ghost predicate Ends(index: Isam, sorted: seq<Record>, key: int)
    requires |sorted| == MAX_RECORDS
    reads index
  {
    && index.root != NONE && index.Readable() && index.seps == SepsOf(sorted)
    && |index.chains| == PRIMARY && |index.chains[PRIMARY - 1]| == 2
    && PagesOk(index.dt, index.chains[PRIMARY - 1])
    && var pages := PagesOn(index.dt, index.chains[PRIMARY - 1]);
       pages[0] == LastPage(sorted) && pages[1] != [] && AllBelow(pages[1], key)
  }

  function LastPage(sorted: seq<Record>): seq<Record>
    requires |sorted| == MAX_RECORDS
  {
    sorted[N * (PRIMARY - 1)..]
  }

  lemma {:induction false} LastPageBelow(sorted: seq<Record>, key: int)
    requires |sorted| == MAX_RECORDS && Increasing(sorted) && sorted[MAX_RECORDS - 1].key < key
    ensures AllBelow(LastPage(sorted), key) && |LastPage(sorted)| == N && LastBelow(LastPage(sorted), key)
  {
  }

  /** What the second page of the last chain holds. */
  ghost function Second(index: Isam): seq<Record>
    requires |index.chains| == PRIMARY && |index.chains[PRIMARY - 1]| == 2
    requires PagesOk(index.dt, index.chains[PRIMARY - 1])
    reads index
  {
    PagesOn(index.dt, index.chains[PRIMARY - 1])[1]
  }

  method AddFirst(index: Isam, sorted: seq<Record>, key: int, pos: int, ghost above: int)
    requires |sorted| == MAX_RECORDS && Increasing(sorted) && sorted[MAX_RECORDS - 1].key < key < above
    requires index.root != NONE && index.Readable() && index.seps == SepsOf(sorted)
    requires PagesTo(index.dt, sorted, PRIMARY) && index.chains == Singles()
    modifies index
    ensures Ends(index, sorted, above) && Second(index) == [Record(key, pos, NONE)]
  {
    hide IndexOk, StoreOk, StoredIn, EmptyHeads, ContentsOf, Route, SepsOf, PagesTo, Has, Grown;
    ghost var c, r := PRIMARY - 1, Record(key, pos, NONE);
    ghost var dt, d := index.dt, |index.dup|;
    RouteAbove(sorted, key);
    FreshPage(dt, sorted, c);
    LastPageBelow(sorted, key);
    assert sorted[N * c..N * c + N] == LastPage(sorted);
    assert index.chains[c] == [c];
    var _ := index.Add(key, pos);
    GrownPast(dt, [c], r, d, PagesOn(index.dt, index.chains[c]));
  }

  method AddNext(index: Isam, sorted: seq<Record>, key: int, pos: int, ghost above: int)
    requires |sorted| == MAX_RECORDS && Increasing(sorted) && sorted[MAX_RECORDS - 1].key < key < above
    requires Ends(index, sorted, key) && |Second(index)| < N
    modifies index
    ensures Ends(index, sorted, above) && |Second(index)| == old(|Second(index)|) + 1
    ensures forall other :: old(Has(Second(index), other)) ==> Has(Second(index), other)
  {
    hide IndexOk, StoreOk, StoredIn, EmptyHeads, ContentsOf, Route, SepsOf, Has, Grown;
    ghost var c, r := PRIMARY - 1, Record(key, pos, NONE);
    ghost var dt, chain, d := index.dt, index.chains[c], |index.dup|;
    RouteAbove(sorted, key);
    LastPageBelow(sorted, key);
    var _ := index.Add(key, pos);
    GrownAbove(dt, chain, r, d, PagesOn(index.dt, index.chains[c]), above);
  }

  /** The pages of the last chain are these. */
  ghost predicate LastPages(index: Isam, sorted: seq<Record>, pages: seq<seq<Record>>)
    requires |sorted| == MAX_RECORDS
    reads index
  {
    && index.root != NONE && index.Readable() && index.seps == SepsOf(sorted)
    && |index.chains| == PRIMARY && PagesOk(index.dt, index.chains[PRIMARY - 1])
    && PagesOn(index.dt, index.chains[PRIMARY - 1]) == pages
  }

  method AddOnNew(index: Isam, sorted: seq<Record>, key: int, pos: int)
    requires |sorted| == MAX_RECORDS && Increasing(sorted) && sorted[MAX_RECORDS - 1].key < key
    requires Ends(index, sorted, key) && |Second(index)| == N
    modifies index
    ensures LastPages(index, sorted, [LastPage(sorted), old(Second(index)), [Record(key, pos, NONE)]])
  {
    hide IndexOk, StoreOk, StoredIn, EmptyHeads, ContentsOf, Route, SepsOf, Has, Grown;
    ghost var c, r := PRIMARY - 1, Record(key, pos, NONE);
    ghost var dt, chain, d := index.dt, index.chains[c], |index.dup|;
    RouteAbove(sorted, key);
    LastPageBelow(sorted, key);
    var _ := index.Add(key, pos);
    GrownAbove(dt, chain, r, d, PagesOn(index.dt, index.chains[c]), key + 1);
  }

  lemma {:induction false} FoundOnPage(index: Isam, sorted: seq<Record>, l: seq<Record>, m: seq<Record>, n: seq<Record>,
                                       key: int)
    requires |sorted| == MAX_RECORDS && LastPages(index, sorted, [l, m, n]) && Has(m, key)
    ensures |index.Contents()| == PRIMARY && Matching(index.dup, index.Contents()[PRIMARY - 1], key) != []
  {
    hide IndexOk, ContentsOk, Has, Matching, PagesOn, PagesOk, Linked, Apart;
    ChainPagesAre(index.dt, index.chains, PRIMARY - 1);
    var pages, rs := [l, m, n], index.Contents()[PRIMARY - 1];
    ConcatThree(l, m, n);
    HasConcat(l, m, key);
    HasConcat(l + m, n, key);
    MatchingIs(index.dup, rs, key);
  }

  lemma {:induction false} ConcatThree(l: seq<Record>, m: seq<Record>, n: seq<Record>)
    ensures Concat([l, m, n]) == l + m + n
  {
    hide Concat;
    assert [l, m, n] == [l] + [m] + [n];
    ConcatParts([l] + [m], [n]);
    ConcatParts([l], [m]);
    ConcatOne(l);
    ConcatOne(m);
    ConcatOne(n);
  }

  /** A removal of the only record of a third page leaves the first page alone. */
  lemma {:induction false} LeftIsHead(dt: seq<Page>, chain: seq<int>, l: seq<Record>, m: seq<Record>, r: Record)
    requires PagesOk(dt, chain) && PagesOn(dt, chain) == [l, m, [r]] && r.pos != NONE
    requires LastBelow(l, r.key) && LastBelow(m, r.key)
    ensures Loses(dt, chain, r.key) && Left(dt, chain, r.key) == l
  {
    ReachedAt(dt, chain, r.key, 0, 2);
    OnlyOne(r);
    assert PagesOn(dt, chain)[2] == Live(dt[chain[2]]) && PagesOn(dt, chain)[0] == Live(dt[chain[0]]);
    hide Recs, Reached, Purge, Deleted;
    assert chain[2 + 1..] == [];
    RecsNone(dt);
  }

  lemma {:induction false} NotBelow(dup: seq<Record>, rs: seq<Record>, key: int)
    requires AllBelow(rs, key)
    ensures !Has(rs, key) && Matching(dup, rs, key) == []
  {
    MatchingIs(dup, rs, key);
  }

  /** After a build from 81 records with different keys, four positions are added
      under ascending keys above all others. The first three of them share a page
      between two others. When the last is removed the page is lost: the first was
      found before and is not found any more. */
  method LosePage(data: seq<Pair>, sorted: seq<Record>, a: seq<Pair>) returns (before: Response, after: Response)
    requires |data| == MAX_RECORDS == |sorted| && Increasing(sorted) && multiset(sorted) == multiset(AsRecords(data))
    requires |a| == 4 && sorted[MAX_RECORDS - 1].key < a[0].0 < a[1].0 < a[2].0 < a[3].0 && a[3].1 != NONE
    ensures before.Found? && before.records != []
    ensures after == Found([])
  {
    hide IndexOk, StoreOk, StoredIn, EmptyHeads, ContentsOf, Route, SepsOf, PagesTo, Has, AsRecords, Matching, Left, Loses,
         Remains, Reported, Others, Empties, InRange, Pairs, Concat, AtMostOne;
    var index := new Isam();
    assert Ascending(sorted);
    var _ := index.BulkInsert(data, sorted);
    index.BuiltIsReadable();
    var key := a[0].0;
    AddFirst(index, sorted, key, a[0].1, a[1].0);
    OneHas(Record(key, a[0].1, NONE));
    AddNext(index, sorted, a[1].0, a[1].1, a[2].0);
    AddNext(index, sorted, a[2].0, a[2].1, a[3].0);
    ghost var l, m, r := LastPage(sorted), Second(index), Record(a[3].0, a[3].1, NONE);
    AddOnNew(index, sorted, a[3].0, a[3].1);
    RouteAbove(sorted, key);
    FoundOnPage(index, sorted, l, m, [r], key);
    before := index.Search(key);
    RouteAbove(sorted, r.key);
    LastPageBelow(sorted, key);
    LastPageBelow(sorted, r.key);
    LeftIsHead(index.dt, index.chains[PRIMARY - 1], l, m, r);
    var _ := index.Remove(a[3].0);
    NotBelow(index.dup, l, key);
    after := index.Search(key);
  }

  lemma {:induction false} OneHas(r: Record)
    ensures Has([r], r.key)
  {
    assert [r][0] == r;
  }

  // A first page emptied.

  /** A full page and a record with a key between its last two: the first record
      stays alone. */
  lemma {:induction false} GrownApart(dt: seq<Page>, chain: seq<int>, r: Record, d: nat, now: seq<seq<Record>>)
    requires PagesOk(dt, chain) && |chain| == 1 && Grown(dt, chain, r, d, now)
    requires var l := PagesOn(dt, chain)[0];
             |l| == N && Increasing(l) && l[1].key < r.key < l[2].key
    ensures var l := PagesOn(dt, chain)[0];
            |now| == 2 && now[0] == l[..1] && Has(now[1], l[1].key)
  {
    var l := PagesOn(dt, chain)[0];
    ReachedAt(dt, chain, r.key, 0, 0);
    assert !Has(l, r.key);
    var j :| 0 <= j <= 2 && now[1] == l[1..][..j] + [r] + l[1..][j..];
    assert now[1][if j == 0 then 1 else 0] == l[1];
  }

  /** A removal of the only record of a first page with one page behind it. */
  lemma {:induction false} LeftIsNext(dt: seq<Page>, chain: seq<int>, r: Record, next: seq<Record>)
    requires PagesOk(dt, chain) && PagesOn(dt, chain) == [[r], next] && r.pos != NONE
    ensures Empties(dt, chain, r.key) && Left(dt, chain, r.key) == next
  {
    ReachedAt(dt, chain, r.key, 0, 0);
    OnlyOne(r);
    assert PagesOn(dt, chain)[0] == Live(dt[chain[0]]) && PagesOn(dt, chain)[1] == Live(dt[chain[1]]);
    hide Recs, Reached, Purge, Deleted;
    assert chain[0 + 1..] == [chain[1]] && chain[..0] == [];
    RecsOne(dt, chain[1]);
    RecsNone(dt);
  }

  lemma {:induction false} NoneVisible(index: Isam, sorted: seq<Record>, b: int, e: int)
    requires |sorted| == MAX_RECORDS && index.Readable() && index.seps == SepsOf(sorted)
    requires e < sorted[N].key && 0 in EmptyHeads(index.dt) && Increasing(sorted)
    ensures InRange(Pairs(index.dup, Concat(Visible(index.Contents(), EmptyHeads(index.dt)))), b, e) == []
  {
    var seps, contents := index.seps, index.Contents();
    var visible := Visible(contents, EmptyHeads(index.dt));
    assert seps[0] == sorted[N].key;
    forall c | 0 <= c < PRIMARY ensures Clear(visible[c], b, e) {
      assert ChainOk(index.dup, contents[c], seps, c);
      assert c > 0 ==> seps[0] <= seps[c - 1];
    }
    hide Scan, InRange, Pairs, Concat, Visible, ContentsOf, Clear;
    ScanClearParts(index.dup, visible, 0, PRIMARY, b, e);
    assert visible[..PRIMARY] == visible;
    NoneScanned(index.dup, visible, b, e);
    ScanIsInRange(index.dup, Concat(visible), b, e);
  }

  /** The pages of the first chain are these. */
  ghost predicate FirstPages(index: Isam, sorted: seq<Record>, pages: seq<seq<Record>>)
    requires |sorted| == MAX_RECORDS
    reads index
  {
    && index.root != NONE && index.Readable() && index.seps == SepsOf(sorted)
    && |index.chains| == PRIMARY && PagesOk(index.dt, index.chains[0])
    && PagesOn(index.dt, index.chains[0]) == pages
  }

  method AddApart(index: Isam, sorted: seq<Record>, key: int, pos: int) returns (ghost next: seq<Record>)
    requires |sorted| == MAX_RECORDS && Increasing(sorted) && sorted[1].key < key < sorted[2].key
    requires index.root != NONE && index.Readable() && index.seps == SepsOf(sorted)
    requires PagesTo(index.dt, sorted, PRIMARY) && index.chains == Singles()
    modifies index
    ensures FirstPages(index, sorted, [[sorted[0]], next]) && Has(next, sorted[1].key)
  {
    hide IndexOk, StoreOk, StoredIn, EmptyHeads, ContentsOf, Route, SepsOf, PagesTo, Has, Grown;
    ghost var dt, d, l := index.dt, |index.dup|, sorted[..N];
    RouteBelow(sorted, key);
    FreshPage(dt, sorted, 0);
    assert sorted[N * 0..N * 0 + N] == l && l[..1] == [sorted[0]];
    assert index.chains[0] == [0];
    var _ := index.Add(key, pos);
    GrownApart(dt, [0], Record(key, pos, NONE), d, PagesOn(index.dt, index.chains[0]));
    next := PagesOn(index.dt, index.chains[0])[1];
  }

  /** The first page of the first chain is empty, and `behind` is on the pages
      behind it. */
  ghost predicate Headless(index: Isam, sorted: seq<Record>, behind: seq<Record>)
    requires |sorted| == MAX_RECORDS
    reads index
  {
    && index.root != NONE && index.Readable() && index.seps == SepsOf(sorted)
    && 0 in EmptyHeads(index.dt) && |index.Contents()| == PRIMARY && index.Contents()[0] == behind
  }

  method RemoveHead(index: Isam, sorted: seq<Record>, ghost next: seq<Record>)
    requires |sorted| == MAX_RECORDS && Increasing(sorted) && sorted[0].pos != NONE
    requires FirstPages(index, sorted, [[sorted[0]], next])
    modifies index
    ensures Headless(index, sorted, next)
  {
    hide IndexOk, StoreOk, StoredIn, EmptyHeads, Route, SepsOf, Has, Matching, Left, Loses, Remains, Reported, Others,
         Empties, Recs;
    RouteBelow(sorted, sorted[0].key);
    LeftIsNext(index.dt, index.chains[0], sorted[0], next);
    var _ := index.Remove(sorted[0].key);
  }

  method AddAgain(index: Isam, sorted: seq<Record>, ghost behind: seq<Record>, key: int, pos: int)
    requires |sorted| == MAX_RECORDS && Increasing(sorted) && key < sorted[N].key && behind != []
    requires Headless(index, sorted, behind)
    modifies index
    ensures Headless(index, sorted, [Record(key, pos, NONE)])
  {
    hide IndexOk, StoreOk, StoredIn, EmptyHeads, Route, SepsOf, Has, Grown, Recs;
    RouteBelow(sorted, key);
    var _ := index.Add(key, pos);
  }

  /** After a build from 81 records with different keys, a position is added under
      a key between the second and the third, which splits the first page. When the
      first key is removed, a search for the range from the second to the third
      finds nothing, though a search for the second alone does. When the first key
      is added again, the second is lost altogether. */
  method EmptyFirstPage(data: seq<Pair>, sorted: seq<Record>, x: Pair, pos: int)
    returns (range: Response, one: Response, gone: Response)
    requires |data| == MAX_RECORDS == |sorted| && Increasing(sorted) && multiset(sorted) == multiset(AsRecords(data))
    requires sorted[1].key < x.0 < sorted[2].key && sorted[0].pos != NONE
    ensures range == Found([])
    ensures one.Found? && one.records != []
    ensures gone == Found([])
  {
    hide IndexOk, StoreOk, Whole, StoredIn, EmptyHeads, Route, SepsOf, PagesTo, Has, AsRecords, Matching, InRange, Pairs,
         Concat, AtMostOne, Visible, Hides, ContentsOf;
    var index := new Isam();
    assert Ascending(sorted);
    var _ := index.BulkInsert(data, sorted);
    index.BuiltIsReadable();
    ghost var next := AddApart(index, sorted, x.0, x.1);
    RemoveHead(index, sorted, next);
    NoneVisible(index, sorted, sorted[1].key, sorted[2].key);
    range := index.RangeSearch(sorted[1].key, sorted[2].key);
    RouteBelow(sorted, sorted[1].key);
    MatchingIs(index.dup, next, sorted[1].key);
    one := index.Search(sorted[1].key);
    HasNone(sorted[1].key);
    AddAgain(index, sorted, next, sorted[0].key, pos);
    NotBelow(index.dup, [Record(sorted[0].key, pos, NONE)], sorted[1].key);
    gone := index.Search(sorted[1].key);
  }

  // One key for all records.

  predicate AllUnder(rs: seq<Record>, key: int) {
    forall k :: 0 <= k < |rs| ==> rs[k].key == key
  }

  /** After a build from records under one key, each page holds three of them. */
  lemma {:induction false} FreshRecords(index: Isam, sorted: seq<Record>, c: nat)
    requires |sorted| == MAX_RECORDS && c < PRIMARY
    requires index.Readable() && PagesTo(index.dt, sorted, PRIMARY) && index.chains == Singles()
    ensures |index.Contents()| == PRIMARY && index.Contents()[c] == sorted[N * c..N * c + N]
  {
    hide PagesTo, PagesOn, ContentsOf, IndexOk, ContentsOk, Linked, Apart;
    FreshPage(index.dt, sorted, c);
    ChainPagesAre(index.dt, index.chains, c);
    assert index.chains[c] == [c];
    ConcatOne(sorted[N * c..N * c + N]);
  }

  lemma {:induction false} ManyUnder(contents: Contents, c: nat, key: int)
    requires c < |contents| && |contents[c]| == N && AllUnder(contents[c], key)
    ensures !AtMostOne(Concat(contents), key)
  {
    hide Concat;
    assert !AtMostOne(contents[c], key) by { assert contents[c][0].key == key == contents[c][1].key; }
    var low, high := Concat(contents[..c]), Concat(contents[c + 1..]);
    hide AtMostOne;
    ConcatAt(contents, c);
    AtMostOneConcat(low, contents[c], key);
    AtMostOneConcat(low + contents[c], high, key);
  }

  /** The positions found are all that were given under the key. */
  predicate FindsAll(records: seq<int>, data: seq<Pair>, key: int) {
    multiset(records) == multiset(InRange(data, key, key))
  }

  /** After a build from 81 records under one key, a search for it finds some of the
      positions and not all. */
  method FindSome(data: seq<Pair>, sorted: seq<Record>, key: int) returns (res: Response)
    requires |data| == MAX_RECORDS == |sorted| && AllUnder(sorted, key)
    requires multiset(sorted) == multiset(AsRecords(data))
    ensures res.Found? && res.records != []
    ensures !FindsAll(res.records, data, key)
  {
    hide IndexOk, StoreOk, Whole, StoredIn, ContentsOf, Route, SepsOf, PagesTo, Has, AsRecords, Matching, InRange, Pairs,
         Concat, AtMostOne;
    var index := new Isam();
    assert Ascending(sorted);
    var _ := index.BulkInsert(data, sorted);
    index.BuiltIsReadable();
    FreshRecords(index, sorted, 0);
    ManyUnder(index.Contents(), 0, key);
    InRangePermuted(index.history, data, key, key);
    GivenUnder(data, sorted, key);
    Held(index.history, data[0]);
    res := index.Search(key);
  }

  lemma {:induction false} GivenUnder(data: seq<Pair>, sorted: seq<Record>, key: int)
    requires |data| > 0 && AllUnder(sorted, key) && multiset(sorted) == multiset(AsRecords(data))
    ensures data[0].0 == key
  {
    assert AsRecords(data)[0] in multiset(sorted);
  }

  lemma {:induction false} Held(history: seq<Pair>, pair: Pair)
    requires pair in multiset(history)
    ensures exists pos :: (pair.0, pos) in history
  {
    var pos := pair.1;
    assert (pair.0, pos) in history;
  }

  lemma {:induction false} RouteOfAll(sorted: seq<Record>, key: int)
    requires |sorted| == MAX_RECORDS && AllUnder(sorted, key)
    ensures Route(SepsOf(sorted), key) == PRIMARY - 1
  {
    RouteIs(SepsOf(sorted), key, PRIMARY - 1);
  }

  /** A removal on a chain of one full page whose records all have the key. */
  lemma {:induction false} RemainsOnPage(dt: seq<Page>, chain: seq<int>, l: seq<Record>, key: int)
    requires PagesOk(dt, chain) && PagesOn(dt, chain) == [l] && |l| == N && AllUnder(l, key)
    requires forall k :: 0 <= k < N ==> l[k].pos != NONE
    ensures Remains(dt, chain, key) && Reported(dt, chain, key) != []
  {
    ReachedAt(dt, chain, key, 0, 0);
    assert PagesOn(dt, chain)[0] == Live(dt[chain[0]]);
    assert Twice(l, 0, key) by { assert l[0].key == key == l[0 + 1].key; }
    DeletedIs(l[..0] + l[1..], 1, key, l[0].pos);
    assert Deleted(l, 0, key, NONE) != NONE;
  }

  /** After such a build the key is removed, and is found again. */
  method RemoveSome(data: seq<Pair>, sorted: seq<Record>, key: int) returns (removed: Response, after: Response)
    requires |data| == MAX_RECORDS == |sorted| && AllUnder(sorted, key)
    requires multiset(sorted) == multiset(AsRecords(data)) && forall k :: 0 <= k < |sorted| ==> sorted[k].pos != NONE
    ensures removed.Found? && removed.records != []
    ensures after.Found? && after.records != []
  {
    hide IndexOk, StoreOk, Whole, StoredIn, EmptyHeads, ContentsOf, Route, SepsOf, PagesTo, Has, AsRecords, Matching, Left,
         Loses, Remains, Reported, Others, Empties, InRange, Pairs, Concat, AtMostOne;
    var index := new Isam();
    assert Ascending(sorted);
    var _ := index.BulkInsert(data, sorted);
    index.BuiltIsReadable();
    ghost var c := PRIMARY - 1;
    RouteOfAll(sorted, key);
    FreshRecords(index, sorted, c);
    FreshPage(index.dt, sorted, c);
    assert index.chains[c] == [c];
    RemainsOnPage(index.dt, [c], sorted[N * c..N * c + N], key);
    removed := index.Remove(key);
    MatchingIs(index.dup, index.Contents()[c], key);
    after := index.Search(key);
  }
}
