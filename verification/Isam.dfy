/** The index itself: three files, rewritten in place by each operation. */
module IsamIndex {
  import Sequences
  import opened IsamModel
  import opened IsamPages
  import opened IsamContents
  import opened IsamChains
  import opened IsamInsertion
  import opened IsamRemoval
  import opened IsamBuild

  datatype Response = Found(records: seq<int>) | NotBuilt

  /** An index page in memory. */
  class IndexNode {
    var isLeaf: bool
    const keys: array<int>
    const children: array<int>

    constructor ()
      ensures fresh(keys) && fresh(children)
      ensures keys.Length == M && children.Length == M + 1
    {
      keys, children := new int[M], new int[M + 1];
    }

    method SetKey(key: int, i: nat)
      requires i < keys.Length
      modifies keys
      ensures keys[i] == key
      ensures forall k :: 0 <= k < keys.Length && k != i ==> keys[k] == old(keys[k])
    {
      keys[i] := key;
    }

    method SetChild(child: int, i: nat)
      requires i < children.Length
      modifies children
      ensures children[i] == child
      ensures forall k :: 0 <= k < children.Length && k != i ==> children[k] == old(children[k])
    {
      children[i] := child;
    }

    function Image(): IndexPage
      reads this, keys, children
    {
      IndexPage(isLeaf, keys[..], children[..])
    }

    /** The slots up to `h` are those of `node`. */
    ghost predicate FilledTo(node: IndexPage, h: nat)
      reads keys, children
    {
      && keys.Length == M == |node.keys|
      && children.Length == M + 1 == |node.children|
      && h <= M + 1
      && (forall i :: 0 <= i < h ==> children[i] == node.children[i])
      && (forall i :: 0 <= i < h && i < M ==> keys[i] == node.keys[i])
    }
  }

  lemma {:induction false} ImageIs(page: IndexNode, node: IndexPage)
    requires page.FilledTo(node, M + 1) && page.isLeaf == node.isLeaf
    ensures page.Image() == node
  {
  }

  class Isam {
    var root: int
    var idx: seq<IndexPage>
    var dt: seq<Page>
    var dup: seq<Record>

    /** The chain of pages below each separator, the separators, and what was
        put into the index since it was built. */
    ghost var chains: seq<seq<int>>
    ghost var seps: seq<int>
    ghost var history: seq<Pair>

    /** All that every operation keeps. The first page of a chain may be empty. */
    ghost predicate Readable()
      reads this
    {
      root == 12 && IndexOk(idx, seps) && StoreOk(dt, dup, chains, seps)
    }

    /** All that holds as long as nothing was removed. */
    ghost predicate Built()
      reads this
    {
      Readable() && Whole(dt, chains, seps) && StoredIn(dt, dup, chains) == multiset(history)
    }

    lemma BuiltIsReadable()
      requires Built()
      ensures Readable()
    {
    }

    constructor ()
      ensures root == NONE
    {
      root, idx, dt, dup := NONE, [], [], [];
    }

    /** Goes down the index from the page at `pos`. */
    method Descend(pos: nat, key: int, orEqual: bool) returns (c: nat)
      requires IndexOk(idx, seps) && pos < |idx|
      requires Between(seps, key, orEqual, Low(pos), Low(pos) + 3 * Width(pos))
      ensures Between(seps, key, orEqual, c, c + 1)
      decreases pos
    {
      var node, i := idx[pos], 0;
      assert node == Node(seps, pos) && |node.keys| == M && |node.children| == M + 1;
      hide Passes, Between, Node, Low, Width;
      while i < M && Passes(node.keys[i], key, orEqual)
        invariant 0 <= i <= M
        invariant i > 0 ==> Passes(node.keys[i - 1], key, orEqual)
      {
        i := i + 1;
      }
      Descended(seps, key, orEqual, pos, i);
      if node.isLeaf {
        c := node.children[i];
      } else {
        c := Descend(node.children[i], key, orEqual);
      }
    }

    /** The position of a record, and those on its chain of duplicates. */
    method GetAllRaw(record: Record, records: seq<int>) returns (all: seq<int>)
      requires DupsOk(dup) && RecordOk(dup, record)
      ensures all == records + Positions(dup, record)
    {
      var rec := record;
      all := records + [rec.pos];
      while rec.dup != NONE
        invariant RecordOk(dup, rec)
        invariant all + Duplicates(dup, rec.dup) == records + Positions(dup, record)
        decreases rec.dup
      {
        rec := dup[rec.dup];
        all := all + [rec.pos];
      }
    }

    /** The records of each chain. */
    ghost function Contents(): Contents
      reads this
    {
      ContentsOf(dt, chains)
    }

    /** All positions stored under keys from `b` to `e`. */
    ghost function Reference(b: int, e: int): seq<int>
      reads this
    {
      InRange(Pairs(dup, Concat(Contents())), b, e)
    }

    lemma ReferenceIs(b: int, e: int)
      requires Built()
      ensures multiset(Reference(b, e)) == multiset(InRange(history, b, e))
    {
      InRangePermuted(Pairs(dup, Concat(Contents())), history, b, e);
    }

    /** Finds the positions under the first record with the key, on the only
        chain that holds it as long as nothing was removed. */
    method Search(key: int) returns (res: Response)
      requires root != NONE ==> Readable()
      ensures root == NONE <==> res.NotBuilt?
      ensures res.Found? ==> Route(seps, key) < PRIMARY == |Contents()|
      ensures res.Found? ==> res.records == Matching(dup, Contents()[Route(seps, key)], key)
      ensures res.Found? ==> multiset(res.records) <= multiset(Reference(key, key))
      ensures res.Found? && (res.records != [] || !Has(Concat(Contents()), key)) ==>
                (multiset(res.records) == multiset(Reference(key, key)) <==> AtMostOne(Concat(Contents()), key))
      ensures res.Found? && Built() ==>
                && (res.records != [] <==> exists pos :: (key, pos) in history)
                && multiset(res.records) <= multiset(InRange(history, key, key))
                && (multiset(res.records) == multiset(InRange(history, key, key))
                    <==> AtMostOne(Concat(Contents()), key))
    {
      hide IndexOk, StoreOk, IsRoute, Matching, Concat, InRange, Pairs, AtMostOne, ContentsOf, Has, Whole, StoredIn;
      if root == NONE {
        return NotBuilt;
      }
      Start(key, true);
      var c := Descend(root, key, true);
      OnRoute(c, key);
      var records := SearchChain(c, key, chains[c]);
      SearchIs(c, key);
      return Found(records);
    }

    lemma Start(key: int, orEqual: bool)
      requires Readable()
      ensures root == 12 < |idx| && Between(seps, key, orEqual, Low(root), Low(root) + 3 * Width(root))
    {
    }

    lemma OnRoute(c: nat, key: int)
      requires Readable() && Between(seps, key, true, c, c + 1)
      ensures IsRoute(seps, key, c) && Route(seps, key) == c < PRIMARY == |chains| == |Contents()|
      ensures Linked(dt, chains[c]) && chains[c][0] == c && DupsOk(dup)
      ensures RecordsOk(dup, Recs(dt, chains[c])) && Recs(dt, chains[c]) == Contents()[c]
    {
      RouteIs(seps, key, c);
      PrimaryOk(dt, dup, chains, seps, c);
    }

    lemma SearchIs(c: nat, key: int)
      requires Readable() && IsRoute(seps, key, c)
      ensures c < |Contents()|
      ensures var found, all := Matching(dup, Contents()[c], key), Concat(Contents());
              && multiset(found) <= multiset(Reference(key, key))
              && (found != [] || !Has(all, key) ==>
                    (multiset(found) == multiset(Reference(key, key)) <==> AtMostOne(all, key)))
              && (Built() ==>
                    && (found != [] <==> exists pos :: (key, pos) in history)
                    && (found != [] || !Has(all, key))
                    && multiset(Reference(key, key)) == multiset(InRange(history, key, key)))
    {
      hide Matching, Concat, InRange, Pairs, AtMostOne, Has;
      assert ContentsOk(dup, Contents(), seps);
      SearchIsExact(dup, Contents(), seps, key, c);
      SearchIsAllIff(dup, Contents(), seps, key, c);
      if Built() {
        ReferenceIs(key, key);
        forall pos ensures (key, pos) in Stored(dup, Contents()) <==> (key, pos) in history {
          assert (key, pos) in multiset(history) <==> (key, pos) in history;
        }
      }
    }

    method SearchChain(c: int, key: int, ghost chain: seq<int>) returns (records: seq<int>)
      requires Linked(dt, chain) && chain[0] == c
      requires DupsOk(dup) && RecordsOk(dup, Recs(dt, chain))
      ensures records == Matching(dup, Recs(dt, chain), key)
    {
      hide Linked, Has, FirstAt, Matching, Recs, RecordsOk, RecordOk, DupsOk;
      ghost var all := Recs(dt, chain);
      var page := new DataPage();
      var data_pos := c;
      ghost var k := 0;
      Walking(dt, chain, key);
      while data_pos != NONE
        invariant 0 <= k <= |chain| && (k == |chain| ==> Recs(dt, chain[..k]) == all)
        invariant data_pos == if k < |chain| then chain[k] else NONE
        invariant k < |chain| ==> data_pos != NONE
        invariant !Has(Recs(dt, chain[..k]), key)
        invariant page.records.Length == N
        decreases |chain| - k
      {
        Walked(dt, chain, k);
        RecsAt(dt, chain, k);
        page.Read(dt[data_pos]);
        var i := page.IndexOf(key);
        PageSearched(dup, Recs(dt, chain[..k]), Live(dt[data_pos]), Recs(dt, chain[k + 1..]), key, i);
        if i < page.count {
          assert page.records[i] == Live(dt[data_pos])[i];
          records := GetAllRaw(page.records[i], []);
          return;
        }
        data_pos := page.next;
        k := k + 1;
      }
      MatchingIs(dup, all, key);
      return [];
    }

    /** Collects the positions under keys from `b` to `e`: what can be seen of
        them, which is all of them exactly when no chain with an empty first page
        hides a record in the range. */
    method RangeSearch(b: int, e: int) returns (res: Response)
      requires root != NONE ==> Readable()
      ensures root == NONE <==> res.NotBuilt?
      ensures res.Found? ==>
                && res.records == InRange(Pairs(dup, Concat(Visible(Contents(), EmptyHeads(dt)))), b, e)
                && multiset(res.records) <= multiset(Reference(b, e))
                && (multiset(res.records) == multiset(Reference(b, e)) <==> !Hides(Contents(), EmptyHeads(dt), b, e))
      ensures res.Found? && Built() ==> multiset(res.records) == multiset(InRange(history, b, e))
    {
      hide IndexOk, StoreOk, Concat, InRange, Pairs, Scan, ContentsOf, Whole, StoredIn, Visible, Hides, EmptyHeads;
      if root == NONE {
        return NotBuilt;
      }
      Start(b, false);
      var c := Descend(root, b, false);
      OnWay(c, b);
      var records, d := ScanChains(c, b, e);
      RangeIs(c, d, b, e);
      return Found(records);
    }

    lemma OnWay(c: nat, b: int)
      requires Readable() && Between(seps, b, false, c, c + 1)
      ensures c < PRIMARY == |seps| + 1 && (c > 0 ==> seps[c - 1] < b)
    {
    }

    lemma RangeIs(c: nat, d: nat, b: int, e: int)
      requires Readable() && c <= d <= PRIMARY && c < PRIMARY == |seps| + 1 && (c > 0 ==> seps[c - 1] < b)
      requires MayStop(Contents(), d, b, e)
      ensures var visible := Visible(Contents(), EmptyHeads(dt));
              var found := InRange(Pairs(dup, Concat(visible)), b, e);
              && |visible| == PRIMARY
              && Scan(dup, Concat(visible[c..d]), b, e) == found
              && multiset(found) <= multiset(Reference(b, e))
              && (multiset(found) == multiset(Reference(b, e)) <==> !Hides(Contents(), EmptyHeads(dt), b, e))
              && (Built() ==> multiset(found) == multiset(InRange(history, b, e)))
    {
      hide Concat, InRange, Pairs, Scan, Visible, Hides, EmptyHeads, MayStop;
      assert ContentsOk(dup, Contents(), seps);
      VisibleLength(Contents(), EmptyHeads(dt));
      RangeIsExact(dup, Contents(), seps, EmptyHeads(dt), c, d, b, e);
      SeenIsAllIff(dup, Contents(), EmptyHeads(dt), b, e);
      ScanIsInRange(dup, Concat(Visible(Contents(), EmptyHeads(dt))), b, e);
      if Built() {
        ReferenceIs(b, e);
        NothingHidden(b, e);
      }
    }

    lemma NothingHidden(b: int, e: int)
      requires Built()
      ensures !Hides(Contents(), EmptyHeads(dt), b, e)
    {
      assert EmptyHeads(dt) == {};
    }

    lemma VisibleLength(contents: Contents, empty: set<nat>)
      ensures |Visible(contents, empty)| == |contents|
    {
    }

    /** Scans chain after chain, until the last record of one is past the end. */
    method ScanChains(c: nat, b: int, e: int) returns (records: seq<int>, ghost d: nat)
      requires c < PRIMARY && StoreOk(dt, dup, chains, seps)
      ensures c <= d <= PRIMARY == |Contents()| == |Visible(Contents(), EmptyHeads(dt))|
      ensures records == Scan(dup, Concat(Visible(Contents(), EmptyHeads(dt))[c..d]), b, e)
      ensures MayStop(Contents(), d, b, e)
    {
      hide StoreOk, Recs, Linked, Scan, Apart, DupsOk, RecordsOk, Concat, ContentsOf, Visible, EmptyHeads;
      ghost var contents, visible := Contents(), Visible(Contents(), EmptyHeads(dt));
      ScanChainsStart(c, b, e);
      var key, data_pos, more := b, c, true;
      records := [];
      while more
        invariant c <= data_pos <= PRIMARY && (more ==> data_pos < PRIMARY)
        invariant records == Scan(dup, Concat(visible[c..data_pos]), b, e)
        invariant more ==> key <= e || e < b
        invariant !more ==> MayStop(contents, data_pos, b, e)
        decreases PRIMARY - data_pos, more
      {
        ScanChainsStep(c, data_pos, b, e);
        records, key := ScanChain(data_pos, b, e, key, records, chains[data_pos]);
        data_pos := data_pos + 1;
        more := data_pos < PRIMARY && key <= e;
      }
      d := data_pos;
    }

    lemma ScanChainsStart(c: nat, b: int, e: int)
      requires c < PRIMARY && StoreOk(dt, dup, chains, seps)
      ensures |Contents()| == PRIMARY == |Visible(Contents(), EmptyHeads(dt))|
      ensures Scan(dup, Concat(Visible(Contents(), EmptyHeads(dt))[c..c]), b, e) == []
    {
      var visible := Visible(Contents(), EmptyHeads(dt));
      assert visible[c..c] == [] && Concat([]) == [];
      ScanEnds(dup, [], b, e);
    }

    lemma ScanChainsStep(c: nat, p: nat, b: int, e: int)
      requires c <= p < PRIMARY && StoreOk(dt, dup, chains, seps)
      ensures Linked(dt, chains[p]) && LinkAt(dt, chains[p], 0) && chains[p][0] == p
      ensures DupsOk(dup) && RecordsOk(dup, Recs(dt, chains[p]))
      ensures |chains| == PRIMARY == |Contents()| == |Visible(Contents(), EmptyHeads(dt))|
      ensures Contents()[p] == Recs(dt, chains[p])
      ensures var visible := Visible(Contents(), EmptyHeads(dt));
              Scan(dup, Concat(visible[c..p + 1]), b, e)
              == Scan(dup, Concat(visible[c..p]), b, e)
                 + if dt[p].count == 0 then [] else Scan(dup, Recs(dt, chains[p]), b, e)
    {
      PrimaryOk(dt, dup, chains, seps, p);
      var visible := Visible(Contents(), EmptyHeads(dt));
      assert visible[p] == if dt[p].count == 0 then [] else Contents()[p];
      assert visible[c..p + 1] == visible[c..p] + [visible[p]];
      hide Scan, Concat, Recs;
      ConcatParts(visible[c..p], [visible[p]]);
      ConcatOne(visible[p]);
      ScanConcat(dup, Concat(visible[c..p]), visible[p], b, e);
      ScanEnds(dup, [], b, e);
    }

    /** Scans one chain; a page without records ends it. */
    method ScanChain(c: int, b: int, e: int, key0: int, records0: seq<int>, ghost chain: seq<int>)
      returns (records: seq<int>, key: int)
      requires Linked(dt, chain) && chain[0] == c && LinkAt(dt, chain, 0)
      requires DupsOk(dup) && RecordsOk(dup, Recs(dt, chain))
      ensures dt[c].count == 0 ==> records == records0 && key == key0
      ensures dt[c].count > 0 ==>
                var all := Recs(dt, chain);
                records == records0 + Scan(dup, all, b, e) && all != [] && key == all[|all| - 1].key
    {
      hide Linked, Recs, Scan, DupsOk, RecordsOk;
      ghost var all := Recs(dt, chain);
      var page := new DataPage();
      var page_pos: int := c;
      ghost var k := 0;
      Walking(dt, chain, b);
      records, key := records0, key0;
      ScanEnds(dup, all, b, e);
      while page_pos != NONE
        invariant 0 <= k <= |chain| && (k == |chain| ==> Recs(dt, chain[..k]) == all)
        invariant page_pos == if k < |chain| then chain[k] else NONE
        invariant k < |chain| ==> page_pos != NONE
        invariant k > 0 ==> dt[c].count > 0
        invariant var seen := Recs(dt, chain[..k]);
                  && records == records0 + Scan(dup, seen, b, e)
                  && (k > 0 ==> seen != [] && key == seen[|seen| - 1].key)
        invariant page.records.Length == N && (k == 0 ==> key == key0)
        decreases |chain| - k
      {
        Walked(dt, chain, k);
        page.Read(dt[page_pos]);
        if page.IsEmpty() {
          break;
        }
        ghost var seen, l := Recs(dt, chain[..k]), Live(dt[page_pos]);
        RecsAt(dt, chain, k);
        PartOk(dup, seen, l, Recs(dt, chain[k + 1..]));
        ScanConcat(dup, seen, l, b, e);
        records, key := ScanPage(page, b, e, key, records);
        page_pos := page.next;
        k := k + 1;
      }
    }

    method ScanPage(page: DataPage, b: int, e: int, key0: int, records0: seq<int>)
      returns (records: seq<int>, key: int)
      requires page.Valid() && page.count > 0
      requires DupsOk(dup) && RecordsOk(dup, Live(page.Image()))
      ensures records == records0 + Scan(dup, Live(page.Image()), b, e)
      ensures key == page.Last().key
    {
      hide Scan, RecordsOk, RecordOk, DupsOk, Positions;
      ghost var l := Live(page.Image());
      ScanEnds(dup, l, b, e);
      records, key := records0, key0;
      var i := 0;
      while i < page.count
        invariant 0 <= i <= page.count
        invariant records == records0 + Scan(dup, l[..i], b, e)
        invariant i > 0 ==> key == l[i - 1].key
      {
        assert page.records[i] == l[i];
        ScanMore(dup, l, i, b, e);
        key := page.records[i].key;
        if b <= key <= e {
          records := GetAllRaw(page.records[i], records);
        }
        i := i + 1;
      }
    }

    /** An insertion under the key loses what its chain holds: the first page is
        empty, and the pages behind it are linked past. */
    ghost predicate Cuts(key: int)
      reads this
    {
      var c := Route(seps, key);
      c in EmptyHeads(dt) && c < |Contents()| && Contents()[c] != []
    }

    /** Adds a position under a key. */
    method Add(key: int, pos: int) returns (res: Response)
      requires root != NONE ==> Readable()
      modifies this
      ensures root == old(root) && idx == old(idx) && seps == old(seps)
      ensures root == NONE ==> res == NotBuilt && unchanged(this)
      ensures root != NONE ==>
                && res == Found([pos]) && Readable() && history == old(history) + [(key, pos)]
                && EmptyHeads(dt) == old(EmptyHeads(dt))
                && StoredIn(dt, dup, chains) <= old(StoredIn(dt, dup, chains)) + multiset{(key, pos)}
                && (StoredIn(dt, dup, chains) == old(StoredIn(dt, dup, chains)) + multiset{(key, pos)}
                    <==> !old(Cuts(key)))
      ensures root != NONE ==>
                var c := Route(seps, key);
                && c < PRIMARY == |chains| == |old(chains)| && |old(chains)[c]| > 0
                && PagesOk(old(dt), old(chains)[c]) && PagesOk(dt, chains[c])
                && Grown(old(dt), old(chains)[c], Record(key, pos, NONE), |old(dup)|, PagesOn(dt, chains[c]))
                && (old(Cuts(key)) ==> Contents() == old(Contents())[c := [Record(key, pos, NONE)]])
      ensures old(Built()) && root != NONE ==> Built()
    {
      hide IndexOk, StoreOk, Grown, Route, IsRoute, StoredIn, EmptyHeads, ContentsOf, Whole;
      if root == NONE {
        return NotBuilt;
      }
      Start(key, true);
      var c := Descend(root, key, true);
      OnRoute(c, key);
      Insert(c, Record(key, pos, NONE));
      history := history + [(key, pos)];
      AddedIs(old(dt), old(dup), old(chains), c, Record(key, pos, NONE));
      return Found([pos]);
    }

    lemma AddedIs(dt0: seq<Page>, dup0: seq<Record>, chains0: seq<seq<int>>, c: nat, r: Record)
      requires StoreOk(dt0, dup0, chains0, seps)
      requires c < PRIMARY == |chains0| && c < |dt0| && |chains0[c]| > 0 && PagesOk(dt0, chains0[c]) && r.dup == NONE
      requires Takes(dt0, dup0, chains0, seps, c, r, dt, dup, chains)
      ensures StoreOk(dt, dup, chains, seps) && EmptyHeads(dt) == EmptyHeads(dt0)
      ensures Whole(dt0, chains0, seps) ==> Whole(dt, chains, seps)
      ensures |chains| == PRIMARY && PagesOk(dt, chains[c])
      ensures Grown(dt0, chains0[c], r, |dup0|, PagesOn(dt, chains[c]))
      ensures var cuts := c in EmptyHeads(dt0) && c < |ContentsOf(dt0, chains0)| && ContentsOf(dt0, chains0)[c] != [];
              && StoredIn(dt, dup, chains) <= StoredIn(dt0, dup0, chains0) + multiset{(r.key, r.pos)}
              && (StoredIn(dt, dup, chains) == StoredIn(dt0, dup0, chains0) + multiset{(r.key, r.pos)} <==> !cuts)
              && (cuts ==> ContentsOf(dt, chains) == ContentsOf(dt0, chains0)[c := [r]])
      ensures Whole(dt0, chains0, seps) ==>
                StoredIn(dt, dup, chains) == StoredIn(dt0, dup0, chains0) + multiset{(r.key, r.pos)}
    {
      hide Linked, Apart, ContentsOk, Grown, Concat, Pairs, PagesOn, IsRoute, Anchored;
      if dt0[c].count == 0 {
        ChainCut(dup0, ContentsOf(dt0, chains0), c, r);
      }
    }

    /** Puts a record on the chain at `c`: as a duplicate, into a page with room,
        into one half of a page that it splits, or on a new page behind the last
        or behind an empty first page. */
    method Insert(c: nat, record: Record)
      requires StoreOk(dt, dup, chains, seps) && IsRoute(seps, record.key, c) && record.dup == NONE
      modifies this`dt, this`dup, this`chains
      ensures c < PRIMARY == |old(chains)| && c < |old(dt)|
      ensures |old(chains)[c]| > 0 && PagesOk(old(dt), old(chains)[c])
      ensures Takes(old(dt), old(dup), old(chains), seps, c, record, dt, dup, chains)
    {
      hide Linked, Distinct, StoreOk, IsRoute, Reached, Takes, PagesOk;
      InsertStart(c, record);
      ghost var chain, key := chains[c], record.key;
      var page := new DataPage();
      var data_pos: int, prev_pos: int := c, c;
      ghost var k := 0;
      while data_pos != NONE
        invariant 0 <= k <= |chain| && data_pos == if k < |chain| then chain[k] else NONE
        invariant k < |chain| ==> data_pos != NONE
        invariant k > 0 ==> LinkAt(dt, chain, k - 1) && prev_pos == chain[k - 1] && page.Image() == dt[prev_pos]
        invariant page.records.Length == N && fresh(page) && fresh(page.records)
        invariant dt == old(dt) && dup == old(dup) && chains == old(chains)
        invariant PagesOk(dt, chain) && Reached(dt, chain, 0, key) == Reached(dt, chain, k, key)
        invariant k > 0 ==> page.count > 0
        decreases |chain| - k
      {
        prev_pos := data_pos;
        InsertStep(c, k, record);
        page.Read(dt[data_pos]);
        if page.IsEmpty() {
          ghost var new_page := CreatePage(page, prev_pos, record);
          TakesPastEmpty(old(dt), dup, chains, seps, c, record, new_page);
          chains := chains[c := [c, |old(dt)|]];
          return;
        }
        if record.key <= page.Last().key {
          InsertIntoPage(page, data_pos, record, c, k);
          return;
        }
        data_pos := page.next;
        k := k + 1;
      }
      InsertAtEnd(page, prev_pos, record, c, k);
    }

    lemma InsertStart(c: nat, record: Record)
      requires StoreOk(dt, dup, chains, seps) && IsRoute(seps, record.key, c)
      ensures c < PRIMARY == |chains| && c < |dt| && |chains[c]| > 0 && chains[c][0] == c
      ensures PagesOk(dt, chains[c]) && Linked(dt, chains[c])
    {
      ChainPages(dt, chains, c);
    }

    lemma InsertStep(c: nat, k: nat, record: Record)
      requires StoreOk(dt, dup, chains, seps) && IsRoute(seps, record.key, c) && record.dup == NONE
      requires c < |chains| && c < |dt| && k < |chains[c]| && PagesOk(dt, chains[c])
      requires Reached(dt, chains[c], 0, record.key) == Reached(dt, chains[c], k, record.key)
      ensures LinkAt(dt, chains[c], k) && (k + 1 < |chains[c]| ==> chains[c][k + 1] != NONE)
      ensures var p := dt[chains[c][k]];
              && (k > 0 ==> p.count > 0)
              && if PassedOver(p, record.key) then
                   && Reached(dt, chains[c], 0, record.key) == Reached(dt, chains[c], k + 1, record.key)
                   && (k + 1 == |chains[c]| ==> StopsAt(dt, dup, chains, seps, c, k + 1, record))
                 else StopsAt(dt, dup, chains, seps, c, k, record)
    {
      OneChain(dt, chains, c);
      Walked(dt, chains[c], k);
    }

    /** `page` is the image of the page at `data_pos`, number `k` of chain `c`. */
    method InsertIntoPage(page: DataPage, data_pos: int, record: Record, ghost c: nat, ghost k: nat)
      requires StopsAt(dt, dup, chains, seps, c, k, record) && k < |chains[c]|
      requires data_pos == chains[c][k] && page.Image() == dt[data_pos] && page.count > 0
      modifies this`dt, this`dup, this`chains, page, page.records
      ensures Takes(old(dt), old(dup), old(chains), seps, c, record, dt, dup, chains)
    {
      hide StoreOk, IsRoute, Reached, Takes, Distinct, Has, SplitInto;
      ghost var chain, end, was := chains[c], |dt|, Live(dt[data_pos]);
      var i := page.IndexOf(record.key);
      HasFirst(was, record.key, i);
      if i < page.count {
        assert page.records[i] == was[i];
        TakesDuplicate(dt, dup, chains, seps, c, k, record, i);
        InsertDuplicate(page, i, record);
        dt := dt[data_pos := page.Image()];
      } else if page.IsFull() {
        ghost var at := SplitAndInsert(page, record);
        Stopped(old(dt), dup, chains, seps, c, k, record, k);
        TakesBySplit(old(dt), dup, chains, seps, c, k, record, page.Image(), dt[end], at);
        dt := dt[data_pos := page.Image()];
        assert dt == old(dt)[data_pos := page.Image()] + [dt[end]];
        chains := chains[c := chain[..k + 1] + [end] + chain[k + 1..]];
      } else {
        var _, at := page.InsertRecord(record);
        TakesInPlace(dt, dup, chains, seps, c, k, record, page.Image(), at);
        dt := dt[data_pos := page.Image()];
      }
    }

    lemma HasFirst(rs: seq<Record>, key: int, i: nat)
      requires FirstAt(rs, key, i)
      ensures Has(rs, key) <==> i < |rs|
    {
    }

    /** `page` is the image of the last page of chain `c`. */
    method InsertAtEnd(page: DataPage, prev_pos: int, record: Record, ghost c: nat, ghost k: nat)
      requires StopsAt(dt, dup, chains, seps, c, k, record) && k == |chains[c]|
      requires prev_pos == chains[c][k - 1] && page.Image() == dt[prev_pos] && page.count > 0
      modifies this`dt, this`chains, page, page.records
      ensures Takes(old(dt), dup, old(chains), seps, c, record, dt, dup, chains)
    {
      hide StoreOk, IsRoute, Reached, Takes, Distinct;
      if !page.IsFull() {
        var _, at := page.InsertRecord(record);
        TakesInPlace(dt, dup, chains, seps, c, k, record, page.Image(), at);
        dt := dt[prev_pos := page.Image()];
      } else {
        ghost var end := |dt|;
        ghost var new_page := CreatePage(page, prev_pos, record);
        TakesAtEnd(old(dt), dup, chains, seps, c, k, record, new_page);
        chains := chains[c := chains[c][..k] + [end] + chains[c][k..]];
      }
    }

    /** Puts the record on a new page at the end of the file, and links the page
        at `prev_pos`, of which `page` is the image, to it. */
    method CreatePage(page: DataPage, prev_pos: int, record: Record) returns (ghost new_page: Page)
      requires 0 <= prev_pos < |dt| && page.Image() == dt[prev_pos]
      modifies this`dt, page`next
      ensures dt == old(dt)[prev_pos := old(dt)[prev_pos].(next := |old(dt)|)] + [new_page]
      ensures Filled(new_page) && new_page.next == NONE && Live(new_page) == [record]
    {
      var new_pos := |dt|;
      var created := new DataPage();
      created.SetRecord(record, 0);
      new_page := created.Image();
      dt := dt + [created.Image()];
      page.next := new_pos;
      dt := dt[prev_pos := page.Image()];
    }

    /** Puts the position in front of the duplicates of the record in a slot. */
    method InsertDuplicate(page: DataPage, i: nat, record: Record)
      requires i < page.records.Length && (page.records as object) != this && (page as object) != this
      modifies this`dup, page.records
      ensures dup == old(dup) + [Record(record.key, record.pos, old(page.records[i].dup))]
      ensures page.records[..] == old(page.records[..])[i := old(page.records[i]).(dup := |old(dup)|)]
    {
      var entry := record.(dup := page.records[i].dup);
      var duplicate_position := |dup|;
      dup := dup + [entry];
      page.records[i] := page.records[i].(dup := duplicate_position);
    }

    /** Moves the upper records of a full page to a new page at the end of the
        file, and puts the record into one of the two. */
    method SplitAndInsert(page: DataPage, record: Record) returns (ghost j: nat)
      requires page.Valid() && page.IsFull()
      modifies page, page.records, this`dt
      ensures |dt| == |old(dt)| + 1 && dt[..|old(dt)|] == old(dt)
      ensures var new_page := dt[|old(dt)|];
              && Filled(page.Image()) && page.next == |old(dt)|
              && Filled(new_page) && new_page.next == old(page.next)
              && j <= N
              && Live(page.Image()) + Live(new_page)
                 == old(Live(page.Image()))[..j] + [record] + old(Live(page.Image()))[j..]
              && SplitInto(old(Live(page.Image())), record, Live(page.Image()), Live(new_page))
    {
      hide SplitInto, InsertPos, Inserted;
      ghost var l := Live(page.Image());
      var index := page.count - 1;
      while index > 0 && record.key < page.records[index].key
        invariant 0 <= index < N
        invariant forall m :: index < m < N ==> record.key < l[m].key
      {
        index := index - 1;
      }
      var new_page := new DataPage();
      new_page.next := page.next;
      MoveUpper(page, new_page);
      if index < N / 2 {
        var _, at := page.InsertRecord(record);
        j := at;
        LowerTakes(l, record, at);
      } else {
        var _, at := new_page.InsertRecord(record);
        j := 1 + at;
        UpperTakes(l, record, at);
      }
      var pos := |dt|;
      dt := dt + [new_page.Image()];
      page.next := pos;
    }

    method MoveUpper(page: DataPage, new_page: DataPage)
      requires page.Valid() && page.IsFull() && new_page.Valid() && new_page.count == 0
      requires page != new_page && page.records != new_page.records
      modifies page`count, page.records, new_page`count, new_page.records
      ensures page.Valid() && Live(page.Image()) == old(Live(page.Image()))[..1]
      ensures new_page.Valid() && Live(new_page.Image()) == old(Live(page.Image()))[1..]
    {
      ghost var l := Live(page.Image());
      var i, j := N / 2, 0;
      while i < N
        invariant 1 <= i <= N && j == i - 1
        invariant page.count == N - j && new_page.count == j
        invariant page.records.Length == N == new_page.records.Length
        invariant Live(page.Image())[..1] == l[..1]
        invariant page.records[..][i..] == l[i..]
        invariant new_page.records[..][..j] == l[1..i]
      {
        Sequences.First(l, i);
        Sequences.Next(l, 1, i);
        assert page.records[..][i] == l[i..][0];
        new_page.SetRecord(page.records[i], j);
        page.ClearRecord(i);
        j := j + 1;
        i := i + 1;
      }
    }

    /** Builds the index from the pairs of keys and positions given. `sorted` is
        what the library's sort makes of the records. */
    method BulkInsert(data: seq<Pair>, sorted: seq<Record>) returns (built: bool)
      requires Ascending(sorted) && multiset(sorted) == multiset(AsRecords(data))
      modifies this
      ensures |sorted| == |data| && (built <==> |data| >= MAX_RECORDS)
      ensures !built ==> unchanged(this)
      ensures built ==> Built() && multiset(history) == multiset(data) && seps == SepsOf(sorted)
      ensures |data| == MAX_RECORDS ==> PagesTo(dt, sorted, PRIMARY) && chains == Singles() && dup == []
    {
      var other := [];
      var i := 0;
      while i < |data|
        invariant 0 <= i <= |data| && other == AsRecords(data[..i])
      {
        other := other + [Record(data[i].0, data[i].1, NONE)];
        i := i + 1;
      }
      assert data[..i] == data;
      assert AsPairs(other) == data;
      PermutedPairs(other, sorted);
      assert |sorted| == |multiset(sorted)| == |multiset(other)| == |other|;
      assert Plain(sorted) by {
        forall k | 0 <= k < |sorted| ensures sorted[k].dup == NONE {
          assert sorted[k] in multiset(sorted);
          assert sorted[k] in multiset(other);
          var m :| 0 <= m < |other| && other[m] == sorted[k];
        }
      }
      built := Build(sorted);
    }

    /** Fills the primary pages and the index from sorted records, and then adds
        the rest one by one. */
    method Build(data: seq<Record>) returns (built: bool)
      requires Ascending(data) && Plain(data)
      modifies this
      ensures built <==> |data| >= MAX_RECORDS
      ensures !built ==> unchanged(this)
      ensures built ==> Built() && history == AsPairs(data) && seps == SepsOf(data)
      ensures |data| == MAX_RECORDS ==> PagesTo(dt, data, PRIMARY) && chains == Singles() && dup == []
    {
      hide Plain, Ascending, AsPairs, PagesTo, NodesTo, IndexOk, StoreOk, Whole, StoredIn, SepsOf;
      if |data| < MAX_RECORDS {
        return false;
      }
      StartsEmpty(data);
      built := true;
      idx, dt, dup := [], [], [];
      seps := SepsOf(data);
      root := BuildRoot(data);
      chains, history := Singles(), AsPairs(data[..MAX_RECORDS]);
      BuiltIsOk(dt, idx, data);
      AddRest(data);
    }

    lemma StartsEmpty(data: seq<Record>)
      requires |data| >= MAX_RECORDS
      ensures PagesTo([], data, 0) && NodesTo([], SepsOf(data), 0)
    {
    }

    /** Adds the records that the primary pages have no room for. */
    method AddRest(data: seq<Record>)
      requires |data| >= MAX_RECORDS && Plain(data)
      requires root != NONE && Built() && history == AsPairs(data[..MAX_RECORDS])
      modifies this
      ensures root == old(root) && seps == old(seps) && Built() && history == AsPairs(data)
      ensures |data| == MAX_RECORDS ==> dt == old(dt) && chains == old(chains) && dup == old(dup)
    {
      hide Plain, Built, AsPairs, Readable, Grown, Cuts, PagesOn, PagesOk, Route, EmptyHeads, StoredIn, Contents;
      var index := MAX_RECORDS;
      while index < |data|
        invariant MAX_RECORDS <= index <= |data|
        invariant root == old(root) && seps == old(seps) && Built() && history == AsPairs(data[..index])
        invariant index == MAX_RECORDS ==> dt == old(dt) && chains == old(chains) && dup == old(dup)
      {
        PairsTo(data, index);
        BuiltIsReadable();
        var _ := Add(data[index].key, data[index].pos);
        index := index + 1;
      }
      assert data[..index] == data;
    }

    /** Writes the primary pages and the index. */
    method BuildRoot(data: seq<Record>) returns (pos: nat)
      requires |data| >= MAX_RECORDS && seps == SepsOf(data)
      requires PagesTo(dt, data, 0) && NodesTo(idx, seps, 0)
      modifies this`dt, this`idx
      ensures PagesTo(dt, data, PRIMARY) && NodesTo(idx, seps, 13)
      ensures pos == 12
    {
      hide PagesTo, NodesTo, Node, SepsOf, Low, Width;
      Levels(0, 0);
      NodeSlots(data, 12, 0);
      ghost var node := Node(seps, 12);
      var page0 := new IndexNode();
      var j := 0;
      while j < M + 1
        invariant 0 <= j <= M + 1
        invariant seps == SepsOf(data)
        invariant PagesTo(dt, data, 9 * j) && NodesTo(idx, seps, 4 * j)
        invariant fresh(page0) && fresh(page0.keys) && fresh(page0.children) && page0.FilledTo(node, j)
      {
        NodeSlots(data, 12, j);
        var child := BuildBranch(data, j);
        page0.SetChild(child, j);
        if j < M {
          page0.SetKey(data[N * (9 * j + 9)].key, j);
        }
        j := j + 1;
      }
      page0.isLeaf := false;
      ImageIs(page0, node);
      NodeAppended(idx, seps, 12);
      pos := |idx|;
      idx := idx + [page0.Image()];
    }

    /** Writes the pages below one child of the root, and that child. */
    method BuildBranch(data: seq<Record>, j: nat) returns (pos: nat)
      requires |data| >= MAX_RECORDS && j <= M && seps == SepsOf(data)
      requires |seps| == PRIMARY - 1 && PagesTo(dt, data, 9 * j) && NodesTo(idx, seps, 4 * j)
      modifies this`dt, this`idx
      ensures PagesTo(dt, data, 9 * (j + 1)) && NodesTo(idx, seps, 4 * (j + 1))
      ensures pos == 4 * j + 3
    {
      hide PagesTo, NodesTo, Node, SepsOf, Low, Width;
      Levels(j, 0);
      pos := 4 * j + 3;
      NodeSlots(data, pos, 0);
      ghost var node := Node(seps, pos);
      var page1 := new IndexNode();
      var k := 0;
      while k < M + 1
        invariant 0 <= k <= M + 1 && seps == SepsOf(data)
        invariant PagesTo(dt, data, 9 * j + 3 * k) && NodesTo(idx, seps, 4 * j + k)
        invariant fresh(page1) && fresh(page1.keys) && fresh(page1.children) && page1.FilledTo(node, k)
      {
        NodeSlots(data, pos, k);
        var child := BuildLeaf(data, j, k);
        page1.SetChild(child, k);
        if k < M {
          page1.SetKey(data[N * (9 * j + 3 * k + 3)].key, k);
        }
        k := k + 1;
      }
      page1.isLeaf := false;
      ImageIs(page1, node);
      NodeAppended(idx, seps, pos);
      idx := idx + [page1.Image()];
    }

    /** Writes the data pages below one leaf, and the leaf. */
    method BuildLeaf(data: seq<Record>, j: nat, k: nat) returns (pos: nat)
      requires |data| >= MAX_RECORDS && j <= M && k <= M && seps == SepsOf(data)
      requires PagesTo(dt, data, 9 * j + 3 * k) && NodesTo(idx, seps, 4 * j + k)
      modifies this`dt, this`idx
      ensures PagesTo(dt, data, 9 * j + 3 * (k + 1)) && NodesTo(idx, seps, 4 * j + k + 1)
      ensures pos == 4 * j + k
    {
      hide PagesTo, NodesTo, Node, SepsOf, Low, Width;
      Levels(j, k);
      pos := 4 * j + k;
      NodeSlots(data, pos, 0);
      ghost var node := Node(seps, pos);
      var page2 := new IndexNode();
      var h := 0;
      while h < M + 1
        invariant 0 <= h <= M + 1 && seps == SepsOf(data) && idx == old(idx)
        invariant PagesTo(dt, data, 9 * j + 3 * k + h)
        invariant fresh(page2) && fresh(page2.keys) && fresh(page2.children) && page2.FilledTo(node, h)
      {
        NodeSlots(data, pos, h);
        PageAppended(dt, data, 9 * j + 3 * k + h);
        var child := BuildPage(data, N * (9 * j + 3 * k + h));
        page2.SetChild(child, h);
        if h < M {
          page2.SetKey(data[N * (9 * j + 3 * k + h + 1)].key, h);
        }
        h := h + 1;
      }
      page2.isLeaf := true;
      ImageIs(page2, node);
      NodeAppended(idx, seps, pos);
      idx := idx + [page2.Image()];
    }

    /** Writes one full data page. */
    method BuildPage(data: seq<Record>, index: nat) returns (pos: nat)
      requires index + N <= |data|
      modifies this`dt
      ensures pos == |old(dt)| && dt == old(dt) + [Page(N, NONE, data[index..index + N])]
    {
      var page3 := new DataPage();
      var l := 0;
      while l < N
        invariant 0 <= l <= N && page3.count == l && page3.records.Length == N
        invariant page3.next == NONE && dt == old(dt)
        invariant page3.records[..][..l] == data[index..index + l]
      {
        assert data[index..index + l + 1] == data[index..index + l] + [data[index + l]];
        page3.SetRecord(data[index + l], l);
        l := l + 1;
      }
      pos := |dt|;
      assert page3.records[..][..N] == page3.records[..];
      dt := dt + [page3.Image()];
    }

    /** Takes the records with the key off one page of their chain. What is found
        under other keys stays the same unless pages are lost. */
    method Remove(key: int) returns (res: Response)
      requires root != NONE ==> Readable()
      modifies this`dt, this`chains
      ensures root == NONE <==> res.NotBuilt?
      ensures res.NotBuilt? ==> unchanged(this)
      ensures res.Found? ==>
                && Readable() && StoredIn(dt, dup, chains) <= old(StoredIn(dt, dup, chains))
                && Route(seps, key) < PRIMARY == |old(chains)|
                && var c := Route(seps, key);
                var was, now, chain := old(Contents()), Contents(), old(chains)[c];
                && PagesOk(old(dt), chain)
                && res.records == Reported(old(dt), chain, key)
                && now == was[c := Left(old(dt), chain, key)]
                && (Has(now[c], key) <==> Remains(old(dt), chain, key))
                && EmptyHeads(dt) == old(EmptyHeads(dt)) + (if Empties(old(dt), chain, key) then {c} else {})
                && (Others(now[c], key) == Others(was[c], key) <==> !Loses(old(dt), chain, key))
                && (!Loses(old(dt), chain, key) ==>
                      forall i, other :: 0 <= i < PRIMARY && other != key ==>
                        Matching(dup, now[i], other) == Matching(dup, was[i], other))
    {
      hide IndexOk, ChainsOk, ContentsOk, IsRoute, Route, Matching, Left, Reached, Reported, Remains, Others, Empties,
           EmptyHeads, Loses, Has, Recs, Stored, PagesOk, Linked, RecordsOk, DupsOk;
      if root == NONE {
        return NotBuilt;
      }
      Start(key, true);
      var c := Descend(root, key, true);
      OnRoute(c, key);
      RemovalKeeps(dt, dup, chains, c, key);
      RemainsIff(dt, chains[c], key);
      var records := RemoveFromChain(c, key);
      LeavesOk(old(dt), dup, old(chains), seps, c, key, dt, chains);
      res := Found(records);
    }

    method RemoveFromChain(c: nat, key: int) returns (records: seq<int>)
      requires ChainsOk(dt, chains) && c < PRIMARY && PagesOk(dt, chains[c])
      modifies this`dt, this`chains
      ensures c < |old(chains)| && PagesOk(old(dt), old(chains)[c])
      ensures records == Reported(old(dt), old(chains)[c], key)
      ensures Leaves(old(dt), old(chains), c, key, dt, chains)
    {
      hide ChainsOk, Recs, Linked, Purge, Deleted, Reached, Leaves, PagesOk, Left, Reported, Empties;
      RemoveStart(c, key);
      ghost var chain := chains[c];
      var page := new DataPage();
      var prev_page := new DataPage();
      var data_pos: int, prev_pos := c, c;
      var iter := 0;
      while data_pos != NONE
        invariant dt == old(dt) && chains == old(chains) && PagesOk(dt, chain)
        invariant 0 <= iter <= |chain| && data_pos == if iter < |chain| then chain[iter] else NONE
        invariant iter < |chain| ==> data_pos != NONE
        invariant Reached(dt, chain, 0, key) == Reached(dt, chain, iter, key)
        invariant fresh(page) && fresh(page.records) && page.records.Length == N
        invariant fresh(prev_page) && fresh(prev_page.records) && prev_page.records.Length == N
        invariant page != prev_page && page.records != prev_page.records
        decreases |chain| - iter
      {
        Walks(dt, chain, iter, key);
        page.Read(dt[data_pos]);
        prev_page.Read(dt[prev_pos]);
        if page.IsEmpty() {
          RemoveNothing(c, iter, key);
          return [];
        }
        if key <= page.Last().key {
          records := RemoveAt(page, prev_page, data_pos, prev_pos, iter, key, c);
          return;
        }
        data_pos := page.next;
        iter := iter + 1;
      }
      RemoveNothing(c, iter, key);
      return [];
    }

    lemma RemoveStart(c: nat, key: int)
      requires ChainsOk(dt, chains) && c < PRIMARY
      ensures |chains| == PRIMARY && |chains[c]| > 0 && chains[c][0] == c
      ensures Linked(dt, chains[c]) && LinkAt(dt, chains[c], 0)
    {
      Walks(dt, chains[c], 0, key);
    }

    lemma RemoveNothing(c: nat, k: nat, key: int)
      requires ChainsOk(dt, chains) && c < PRIMARY && PagesOk(dt, chains[c])
      requires k <= |chains[c]| && Reached(dt, chains[c], 0, key) == Reached(dt, chains[c], k, key)
      requires k < |chains[c]| ==> dt[chains[c][k]].count == 0
      ensures Reported(dt, chains[c], key) == []
      ensures Leaves(dt, chains, c, key, dt, chains)
    {
      EmptyPage(key);
      if k < |chains[c]| {
        assert Live(dt[chains[c][k]]) == [];
      }
      LeavesAll(dt, chains, c, key);
    }

    /** `page` and `prev_page` are the images of page `iter` of chain `c`, where
        the walk stops, and of its first page. */
    method RemoveAt(page: DataPage, prev_page: DataPage, data_pos: int, prev_pos: int, iter: nat, key: int,
                    ghost c: nat)
      returns (records: seq<int>)
      requires ChainsOk(dt, chains) && c < PRIMARY == |chains| && PagesOk(dt, chains[c])
      requires var chain := chains[c];
               && iter < |chain|
               && Reached(dt, chain, 0, key) == iter
               && data_pos == chain[iter] && page.Image() == dt[data_pos]
               && prev_pos == chain[0] && prev_page.Image() == dt[prev_pos]
      requires page != prev_page && page.records != prev_page.records
      modifies this`dt, this`chains, page, page.records, prev_page
      ensures records == Reported(old(dt), old(chains)[c], key)
      ensures Leaves(old(dt), old(chains), c, key, dt, chains)
    {
      hide ChainsOk, Recs, Left, Purge, Deleted, Reached, Leaves, Empties;
      ghost var chain := chains[c];
      var deleted_pos := PurgePage(page, key);
      if deleted_pos == NONE {
        NoneDeleted(c, iter, key);
        return [];
      }
      assert Stops(dt, chains, c, iter, key);
      records := [deleted_pos];
      if page.IsEmpty() {
        assert Live(page.Image()) == [];
        if iter == 0 {
          RemovedInPlace(dt, chains, c, 0, key, page.Image());
          dt := dt[data_pos := page.Image()];
        } else {
          prev_page.next := page.next;
          RemovedPage(dt, chains, c, iter, key, prev_page.Image());
          dt := dt[prev_pos := prev_page.Image()];
          chains := chains[c := chain[..1] + chain[iter + 1..]];
        }
      } else if page.count <= N / 2 {
        Merge(page, c, iter, key);
        dt := dt[data_pos := page.Image()];
      } else {
        RemovedInPlace(dt, chains, c, iter, key, page.Image());
        dt := dt[data_pos := page.Image()];
      }
    }

    lemma NoneDeleted(c: nat, k: nat, key: int)
      requires ChainsOk(dt, chains) && c < PRIMARY && PagesOk(dt, chains[c])
      requires k < |chains[c]| && Reached(dt, chains[c], 0, key) == k
      requires Deleted(Live(dt[chains[c][k]]), 0, key, NONE) == NONE
      ensures Leaves(dt, chains, c, key, dt, chains)
    {
      hide Reached, Deleted, Purge, Recs;
      LeavesAll(dt, chains, c, key);
    }

    /** Removes the records with the key, but none right behind one removed. */
    method PurgePage(page: DataPage, key: int) returns (deleted_pos: int)
      requires page.Valid()
      modifies page`count, page.records
      ensures page.Valid() && Live(page.Image()) == Purge(old(Live(page.Image())), 0, key)
      ensures deleted_pos == Deleted(old(Live(page.Image())), 0, key, NONE)
    {
      deleted_pos := NONE;
      var i := 0;
      ghost var l := Live(page.Image());
      while i < page.count
        invariant 0 <= i && page.Valid()
        invariant Purge(l, 0, key) == Purge(Live(page.Image()), i, key)
        invariant Deleted(l, 0, key, NONE) == Deleted(Live(page.Image()), i, key, deleted_pos)
        decreases N - i
      {
        assert page.records[i] == Live(page.Image())[i];
        if page.records[i].key == key {
          deleted_pos := page.records[i].pos;
          RemovedLive(page.Image(), i);
          var _ := page.Remove(i);
        }
        i := i + 1;
      }
    }

    /** Takes in the records of the next page if there is room for all of them,
        and otherwise the first of them. */
    method Merge(page: DataPage, ghost c: nat, ghost k: nat, ghost key: int)
      requires Stops(dt, chains, c, k, key)
      requires page.Valid() && 0 < page.count <= N / 2
      requires page.next == dt[chains[c][k]].next
      requires Live(page.Image()) == Purge(Live(dt[chains[c][k]]), 0, key)
      modifies this`dt, this`chains, page, page.records
      ensures |dt| == |old(dt)|
      ensures Leaves(old(dt), old(chains), c, key, dt[old(chains)[c][k] := page.Image()], chains)
    {
      hide Linked, Distinct, ChainsOk, PagesOk, Recs, Left, Purge, Deleted, Reached, Leaves;
      ghost var chain, l := chains[c], Live(page.Image());
      OneChain(dt, chains, c);
      Walks(dt, chain, k, key);
      if page.next == NONE {
        RemovedInPlace(dt, chains, c, k, key, page.Image());
        return;
      }
      var next_page := new DataPage();
      next_page.Read(dt[page.next]);
      ghost var m := Live(next_page.Image());
      if page.count + next_page.count <= N {
        TakeAll(page, next_page);
        page.next := next_page.next;
        RemovedAbsorbing(dt, chains, c, k, key, page.Image());
        chains := chains[c := chain[..k + 1] + chain[k + 2..]];
      } else {
        TakeFirst(page, next_page);
        RemovedBorrowing(dt, chains, c, k, key, page.Image(), next_page.Image());
        dt := dt[page.next := next_page.Image()];
      }
    }

    method TakeAll(page: DataPage, next_page: DataPage)
      requires page.Valid() && next_page.Valid() && page.count + next_page.count <= N
      requires page != next_page && page.records != next_page.records
      modifies page`count, page.records
      ensures page.Valid() && page.count == old(page.count) + next_page.count
      ensures Live(page.Image()) == old(Live(page.Image())) + Live(next_page.Image())
    {
      ghost var m := Live(next_page.Image());
      var page_count, i := page.count, 0;
      while i < next_page.count
        invariant 0 <= i <= |m| && page.Valid() && page.count == page_count + i
        invariant Live(page.Image()) == old(Live(page.Image())) + m[..i]
      {
        page.SetRecord(next_page.records[i], page_count + i);
        assert m[..i + 1] == m[..i] + [m[i]];
        i := i + 1;
      }
    }

    method TakeFirst(page: DataPage, next_page: DataPage)
      requires page.Valid() && next_page.Valid() && page.count < N && next_page.count > 1
      requires page != next_page && page.records != next_page.records
      modifies page`count, page.records, next_page`count, next_page.records
      ensures page.Valid() && page.count == old(page.count) + 1
      ensures next_page.Valid() && next_page.count == old(next_page.count) - 1
      ensures Live(page.Image()) + Live(next_page.Image())
              == old(Live(page.Image())) + old(Live(next_page.Image()))
    {
      ghost var p, q := page.Image(), next_page.Image();
      ghost var r, m := q.slots[0], Live(q);
      AppendedLive(p, r);
      RemovedLive(q, 0);
      assert Live(p) + [r] + (m[..0] + m[1..]) == Live(p) + m;
      hide Live, Removed, SetImage;
      page.SetRecord(next_page.records[0], page.count);
      assert page.Image() == SetImage(p, r, p.count) && next_page.Image() == q;
      var _ := next_page.Remove(0);
      assert page.Image() == SetImage(p, r, p.count) && next_page.Image() == Removed(q, 0);
    }
  }
}
