/** The files of the ISAM index as values: pages, chains of pages, and the
    list of duplicates. A file position is counted in pages (or records). */
module IsamModel {
  import Sequences

  /** Keys in an index page, records in a data page. */
  const M: nat := 2
  const N: nat := 3

  /** (M + 1) to the power 3, for three levels of index pages: the data pages that the
      index points to. */
  const PRIMARY: nat := 27

  /** The least number of records to build from; they fill the primary pages. */
  const MAX_RECORDS: nat := 81

  const NONE: int := -1

  datatype Record = Record(key: int, pos: int, dup: int)

  const NO_RECORD := Record(-1, NONE, NONE)
  const DEFAULT_RECORD := Record(0, NONE, NONE)

  /** A data page as it is in the file: the slots from `count` up hold
      whatever was left in them. */
  datatype Page = Page(count: int, next: int, slots: seq<Record>)

  datatype IndexPage = IndexPage(isLeaf: bool, keys: seq<int>, children: seq<int>)

  predicate PageOk(p: Page) { |p.slots| == N && 0 <= p.count <= N }

  /** The records a page holds. */
  function Live(p: Page): seq<Record>
    requires PageOk(p)
  {
    p.slots[..p.count]
  }

  // The duplicates file.

  /** Each entry is linked to an earlier one under the same key. */
  ghost predicate DupsOk(dup: seq<Record>) {
    forall d :: 0 <= d < |dup| ==>
      NONE <= dup[d].dup < d && (dup[d].dup != NONE ==> dup[dup[d].dup].key == dup[d].key)
  }

  predicate RecordOk(dup: seq<Record>, r: Record) {
    r.dup == NONE || (0 <= r.dup < |dup| && dup[r.dup].key == r.key)
  }

  ghost predicate RecordsOk(dup: seq<Record>, rs: seq<Record>) {
    forall k :: 0 <= k < |rs| ==> RecordOk(dup, rs[k])
  }

  /** The positions on the chain of duplicates that begins at entry `d`. */
  function Duplicates(dup: seq<Record>, d: int): seq<int>
    decreases d
  {
    if 0 <= d < |dup| && dup[d].dup < d then [dup[d].pos] + Duplicates(dup, dup[d].dup) else []
  }

  /** All positions stored under a record. */
  function Positions(dup: seq<Record>, r: Record): seq<int> {
    [r.pos] + Duplicates(dup, r.dup)
  }

  lemma {:induction false} DuplicatesStay(dup: seq<Record>, more: seq<Record>, d: int)
    requires DupsOk(dup) && d < |dup|
    ensures Duplicates(dup + more, d) == Duplicates(dup, d)
    decreases d
  {
    if 0 <= d {
      DuplicatesStay(dup, more, dup[d].dup);
    }
  }

  // What is stored: (key, position) pairs.

  type Pair = (int, int)

  function Tagged(key: int, ps: seq<int>): seq<Pair> {
    if ps == [] then [] else Tagged(key, ps[..|ps| - 1]) + [(key, ps[|ps| - 1])]
  }

  function Pairs(dup: seq<Record>, rs: seq<Record>): seq<Pair> {
    if rs == [] then []
    else Pairs(dup, rs[..|rs| - 1]) + Tagged(rs[|rs| - 1].key, Positions(dup, rs[|rs| - 1]))
  }

  /** The reference answer: the positions under keys from `b` to `e`. */
  function InRange(ps: seq<Pair>, b: int, e: int): seq<int> {
    if ps == [] then []
    else
      var last := ps[|ps| - 1];
      InRange(ps[..|ps| - 1], b, e) + if b <= last.0 <= e then [last.1] else []
  }

  /** The answer a scan of records gives, in the order of the scan. */
  function Scan(dup: seq<Record>, rs: seq<Record>, b: int, e: int): seq<int> {
    if rs == [] then []
    else
      var last := rs[|rs| - 1];
      Scan(dup, rs[..|rs| - 1], b, e) + if b <= last.key <= e then Positions(dup, last) else []
  }

  lemma {:induction false} PairsConcat(dup: seq<Record>, a: seq<Record>, b: seq<Record>)
    ensures Pairs(dup, a + b) == Pairs(dup, a) + Pairs(dup, b)
  {
    hide Tagged, Positions;
    Sequences.Snoc(a, b);
    if b != [] {
      PairsConcat(dup, a, b[..|b| - 1]);
    }
  }

  lemma {:induction false} InRangeConcat(a: seq<Pair>, b: seq<Pair>, lo: int, hi: int)
    ensures InRange(a + b, lo, hi) == InRange(a, lo, hi) + InRange(b, lo, hi)
  {
    Sequences.Snoc(a, b);
    if b != [] {
      InRangeConcat(a, b[..|b| - 1], lo, hi);
    }
  }

  lemma {:induction false} TaggedInRange(key: int, ps: seq<int>, b: int, e: int)
    ensures InRange(Tagged(key, ps), b, e) == if b <= key <= e then ps else []
  {
    hide InRange;
    NothingInRange(b, e);
    if ps != [] {
      var init, last := ps[..|ps| - 1], ps[|ps| - 1];
      TaggedInRange(key, init, b, e);
      InRangeConcat(Tagged(key, init), [(key, last)], b, e);
      OneInRange((key, last), b, e);
      Sequences.Rejoin(ps);
      Sequences.Nothing(init);
    }
  }

  lemma OneInRange(pair: Pair, b: int, e: int)
    ensures InRange([pair], b, e) == if b <= pair.0 <= e then [pair.1] else []
  {
    assert [pair][..0] == [];
  }

  /** A scan finds exactly the pairs in range. */
  lemma {:induction false} ScanIsInRange(dup: seq<Record>, rs: seq<Record>, b: int, e: int)
    ensures Scan(dup, rs, b, e) == InRange(Pairs(dup, rs), b, e)
  {
    if rs != [] {
      var init, last := rs[..|rs| - 1], rs[|rs| - 1];
      ScanIsInRange(dup, init, b, e);
      TaggedInRange(last.key, Positions(dup, last), b, e);
      InRangeConcat(Pairs(dup, init), Tagged(last.key, Positions(dup, last)), b, e);
    }
  }

  lemma ScanConcat(dup: seq<Record>, a: seq<Record>, b: seq<Record>, lo: int, hi: int)
    ensures Scan(dup, a + b, lo, hi) == Scan(dup, a, lo, hi) + Scan(dup, b, lo, hi)
  {
    hide Scan, Pairs, InRange;
    ScanIsInRange(dup, a + b, lo, hi);
    ScanIsInRange(dup, a, lo, hi);
    ScanIsInRange(dup, b, lo, hi);
    PairsConcat(dup, a, b);
    InRangeConcat(Pairs(dup, a), Pairs(dup, b), lo, hi);
  }

  /** A pair taken out of a list, wherever it is. */
  lemma InRangeWithout(ps: seq<Pair>, k: nat, b: int, e: int)
    requires k < |ps|
    ensures multiset(ps) == multiset(ps[..k] + ps[k + 1..]) + multiset{ps[k]}
    ensures multiset(InRange(ps, b, e))
            == multiset(InRange(ps[..k] + ps[k + 1..], b, e)) + multiset(InRange([ps[k]], b, e))
  {
    assert ps == ps[..k] + [ps[k]] + ps[k + 1..];
    InRangeConcat(ps[..k], [ps[k]], b, e);
    InRangeConcat(ps[..k] + [ps[k]], ps[k + 1..], b, e);
    InRangeConcat(ps[..k], ps[k + 1..], b, e);
  }

  lemma {:induction false} InRangeWithoutLast(ps: seq<Pair>, b: int, e: int)
    requires ps != []
    ensures var init, x := ps[..|ps| - 1], ps[|ps| - 1];
            && multiset(ps) == multiset(init) + multiset{x}
            && multiset(InRange(ps, b, e)) == multiset(InRange(init, b, e)) + multiset(InRange([x], b, e))
  {
    hide InRange;
    InRangeWithout(ps, |ps| - 1, b, e);
    assert ps[..|ps| - 1] + ps[|ps|..] == ps[..|ps| - 1];
  }

  /** The reference answer grows with what is stored. */
  lemma {:induction false} InRangeLess(ps: seq<Pair>, qs: seq<Pair>, b: int, e: int)
    requires multiset(ps) <= multiset(qs)
    ensures multiset(InRange(ps, b, e)) <= multiset(InRange(qs, b, e))
    decreases |ps|
  {
    NothingInRange(b, e);
    hide InRange;
    if ps != [] {
      var x := ps[|ps| - 1];
      assert x in multiset(qs);
      var k :| 0 <= k < |qs| && qs[k] == x;
      InRangeWithoutLast(ps, b, e);
      InRangeWithout(qs, k, b, e);
      LessByOne(multiset(ps[..|ps| - 1]), multiset(qs[..k] + qs[k + 1..]), x);
      InRangeLess(ps[..|ps| - 1], qs[..k] + qs[k + 1..], b, e);
    }
  }

  lemma {:induction false} LessByOne(a: multiset<Pair>, b: multiset<Pair>, x: Pair)
    requires a + multiset{x} <= b + multiset{x}
    ensures a <= b
  {
    forall y ensures a[y] <= b[y] {
      assert (a + multiset{x})[y] <= (b + multiset{x})[y];
    }
  }

  lemma {:induction false} NothingInRange(b: int, e: int)
    ensures InRange([], b, e) == []
  {
  }

  /** It depends only on what is stored, not on its order. */
  lemma {:induction false} InRangePermuted(ps: seq<Pair>, qs: seq<Pair>, b: int, e: int)
    requires multiset(ps) == multiset(qs)
    ensures multiset(InRange(ps, b, e)) == multiset(InRange(qs, b, e))
  {
    InRangeLess(ps, qs, b, e);
    InRangeLess(qs, ps, b, e);
  }

  /** New entries in the duplicates file do not disturb the old ones. */
  lemma {:induction false} PairsStay(dup: seq<Record>, more: seq<Record>, rs: seq<Record>)
    requires DupsOk(dup) && RecordsOk(dup, rs)
    ensures Pairs(dup + more, rs) == Pairs(dup, rs)
  {
    if rs != [] {
      PairsStay(dup, more, rs[..|rs| - 1]);
      assert RecordOk(dup, rs[|rs| - 1]);
      DuplicatesStay(dup, more, rs[|rs| - 1].dup);
    }
  }

  lemma PairsOne(dup: seq<Record>, r: Record)
    ensures Pairs(dup, [r]) == Tagged(r.key, Positions(dup, r))
  {
    assert [r][..0] == [];
  }
}
