/** What each of the chains of pages holds, and what a search must find there. */
module IsamContents {
  import Sequences
  import opened IsamModel

  /** The records of each chain, in the order of its pages. */
  type Contents = seq<seq<Record>>

  /** The keys of chain `c` lie between its neighbouring separators. */
  ghost predicate Bounded(rs: seq<Record>, seps: seq<int>, c: nat) {
    forall k :: 0 <= k < |rs| ==>
      (0 < c <= |seps| ==> seps[c - 1] <= rs[k].key) && (c < |seps| ==> rs[k].key <= seps[c])
  }

  ghost predicate Has(rs: seq<Record>, key: int) {
    exists k :: 0 <= k < |rs| && rs[k].key == key
  }

  ghost predicate ChainOk(dup: seq<Record>, rs: seq<Record>, seps: seq<int>, c: nat) {
    Bounded(rs, seps, c) && RecordsOk(dup, rs)
  }

  ghost predicate SepsOk(seps: seq<int>) {
    |seps| == PRIMARY - 1 && forall i, j :: 0 <= i <= j < |seps| ==> seps[i] <= seps[j]
  }

  ghost predicate ContentsOk(dup: seq<Record>, contents: Contents, seps: seq<int>) {
    && |contents| == PRIMARY
    && SepsOk(seps)
    && DupsOk(dup)
    && forall c :: 0 <= c < |contents| ==> ChainOk(dup, contents[c], seps, c)
  }

  /** Each chain holds the separator before it. A build sees to that, and only
      a removal can undo it. */
  ghost predicate Anchored(contents: Contents, seps: seq<int>) {
    forall c :: 0 < c < |contents| && c <= |seps| ==> Has(contents[c], seps[c - 1])
  }

  function Concat(contents: Contents): seq<Record> {
    if contents == [] then [] else Concat(contents[..|contents| - 1]) + contents[|contents| - 1]
  }

  /** Everything stored: each position with its key, as often as it is there. */
  ghost function Stored(dup: seq<Record>, contents: Contents): multiset<Pair> {
    multiset(Pairs(dup, Concat(contents)))
  }

  /** The chain that holds `key` if any does: the separators before it are at
      most the key, those after it are greater. */
  ghost predicate IsRoute(seps: seq<int>, key: int, c: nat) {
    && c <= |seps|
    && (c > 0 ==> seps[c - 1] <= key)
    && (c < |seps| ==> key < seps[c])
  }

  lemma {:induction false} ConcatParts(a: Contents, b: Contents)
    ensures Concat(a + b) == Concat(a) + Concat(b)
  {
    Sequences.Snoc(a, b);
    if b != [] {
      ConcatParts(a, b[..|b| - 1]);
    }
  }

  lemma {:induction false} ConcatOne(rs: seq<Record>)
    ensures Concat([rs]) == rs
  {
    assert [rs][..0] == [];
  }

  lemma {:induction false} ConcatAt(contents: Contents, c: nat)
    requires c < |contents|
    ensures Concat(contents) == Concat(contents[..c]) + contents[c] + Concat(contents[c + 1..])
  {
    hide Concat;
    assert contents == contents[..c] + [contents[c]] + contents[c + 1..];
    ConcatParts(contents[..c], [contents[c]]);
    ConcatParts(contents[..c] + [contents[c]], contents[c + 1..]);
    ConcatOne(contents[c]);
  }

  lemma {:induction false} ConcatUpdated(contents: Contents, c: nat, rs: seq<Record>)
    requires c < |contents|
    ensures Concat(contents[c := rs]) == Concat(contents[..c]) + rs + Concat(contents[c + 1..])
  {
    var after := contents[c := rs];
    assert after[..c] == contents[..c] && after[c + 1..] == contents[c + 1..];
    ConcatAt(after, c);
  }

  lemma {:induction false} ConcatFrom(contents: Contents, r: Record)
    requires r in Concat(contents)
    ensures exists c :: 0 <= c < |contents| && r in contents[c]
  {
    if r !in contents[|contents| - 1] {
      ConcatFrom(contents[..|contents| - 1], r);
    }
  }

  lemma {:induction false} RecordsOkConcat(dup: seq<Record>, contents: Contents)
    requires forall c :: 0 <= c < |contents| ==> RecordsOk(dup, contents[c])
    ensures RecordsOk(dup, Concat(contents))
  {
    var rs := Concat(contents);
    forall k | 0 <= k < |rs| ensures RecordOk(dup, rs[k]) {
      ConcatFrom(contents, rs[k]);
      var c :| 0 <= c < |contents| && rs[k] in contents[c];
    }
  }

  lemma {:induction false} PartOk(dup: seq<Record>, a: seq<Record>, l: seq<Record>, b: seq<Record>)
    requires RecordsOk(dup, a + l + b)
    ensures RecordsOk(dup, l)
  {
    assert forall k :: 0 <= k < |l| ==> l[k] == (a + l + b)[|a| + k];
  }

  lemma {:induction false} Pairs3(dup: seq<Record>, a: seq<Record>, x: seq<Record>, b: seq<Record>)
    ensures Pairs(dup, a + x + b) == Pairs(dup, a) + Pairs(dup, x) + Pairs(dup, b)
  {
    PairsConcat(dup, a, x);
    PairsConcat(dup, a + x, b);
  }

  // What an insertion does to the contents.

  /** A new record goes somewhere into its chain. */
  lemma {:induction false} RecordAdded(dup: seq<Record>, contents: Contents, seps: seq<int>, c: nat,
                    a: seq<Record>, b: seq<Record>, r: Record)
    requires ContentsOk(dup, contents, seps) && IsRoute(seps, r.key, c)
    requires contents[c] == a + b && r.dup == NONE
    ensures var after := contents[c := a + [r] + b];
            && ContentsOk(dup, after, seps)
            && (Anchored(contents, seps) ==> Anchored(after, seps))
            && Stored(dup, after) == Stored(dup, contents) + multiset{(r.key, r.pos)}
  {
    assert c < |contents|;
    AddedKeepsOk(dup, contents, seps, c, a, b, r);
    StillAnchored(contents, seps, c, a + [r] + b) by {
      forall key | Has(contents[c], key) ensures Has(a + [r] + b, key) {
        var k :| 0 <= k < |contents[c]| && contents[c][k].key == key;
        assert (a + [r] + b)[if k < |a| then k else k + 1] == contents[c][k];
      }
    }
    hide Pairs, Concat, ContentsOk, IsRoute, DupsOk, SepsOk, Anchored;
    var p, q := Concat(contents[..c]), Concat(contents[c + 1..]);
    ConcatAt(contents, c);
    ConcatUpdated(contents, c, a + [r] + b);
    Sequences.Assoc3(p, a, b, q);
    Sequences.Assoc4(p, a, [r], b, q);
    AddedMiddle(dup, p + a, r, b + q);
  }

  lemma {:induction false} StillAnchored(contents: Contents, seps: seq<int>, c: nat, rs: seq<Record>)
    requires c < |contents|
    requires forall key :: Has(contents[c], key) ==> Has(rs, key)
    ensures Anchored(contents, seps) ==> Anchored(contents[c := rs], seps)
  {
  }

  lemma {:induction false} AddedMiddle(dup: seq<Record>, p: seq<Record>, r: Record, q: seq<Record>)
    requires r.dup == NONE
    ensures multiset(Pairs(dup, p + [r] + q)) == multiset(Pairs(dup, p + q)) + multiset{(r.key, r.pos)}
  {
    PairsConcat(dup, p, q);
    Pairs3(dup, p, [r], q);
    NewPair(dup, r);
  }

  lemma {:induction false} AddedKeepsOk(dup: seq<Record>, contents: Contents, seps: seq<int>, c: nat,
                                        a: seq<Record>, b: seq<Record>, r: Record)
    requires ContentsOk(dup, contents, seps) && IsRoute(seps, r.key, c)
    requires contents[c] == a + b && r.dup == NONE
    ensures ContentsOk(dup, contents[c := a + [r] + b], seps)
  {
    var rs := a + [r] + b;
    assert ChainOk(dup, contents[c], seps, c);
    forall k | 0 <= k < |rs|
      ensures RecordOk(dup, rs[k])
      ensures (0 < c <= |seps| ==> seps[c - 1] <= rs[k].key) && (c < |seps| ==> rs[k].key <= seps[c])
    {
      if k != |a| {
        assert rs[k] == contents[c][if k < |a| then k else k - 1];
      }
    }
    assert ChainOk(dup, rs, seps, c);
  }

  lemma {:induction false} NewPair(dup: seq<Record>, r: Record)
    requires r.dup == NONE
    ensures Pairs(dup, [r]) == [(r.key, r.pos)] && Pairs(dup, []) == []
  {
    PairsOne(dup, r);
    assert Positions(dup, r) == [r.pos];
    assert Tagged(r.key, [r.pos]) == Tagged(r.key, []) + [(r.key, r.pos)] by {
      assert [r.pos][..0] == [];
    }
  }

  lemma {:induction false} TaggedConcat(key: int, a: seq<int>, b: seq<int>)
    ensures Tagged(key, a + b) == Tagged(key, a) + Tagged(key, b)
  {
    Sequences.Snoc(a, b);
    if b != [] {
      TaggedConcat(key, a, b[..|b| - 1]);
    }
  }

  /** An entry put at the front of the chain of duplicates of a record. */
  lemma {:induction false} LinkedPairs(dup: seq<Record>, x: Record, pos: int)
    requires DupsOk(dup) && RecordOk(dup, x)
    ensures var dup' := dup + [Record(x.key, pos, x.dup)];
            && DupsOk(dup') && RecordOk(dup', x.(dup := |dup|))
            && multiset(Pairs(dup', [x.(dup := |dup|)]))
               == multiset(Pairs(dup, [x])) + multiset{(x.key, pos)}
  {
    hide Pairs, Tagged, Duplicates, DupsOk, RecordOk;
    var y, rest := x.(dup := |dup|), Duplicates(dup, x.dup);
    DupsMore(dup, x, pos);
    PairsOne(dup, x);
    PairsOne(dup + [Record(x.key, pos, x.dup)], y);
    LinkedDuplicates(dup, x, pos);
    TaggedConcat(x.key, [x.pos], [pos] + rest);
    TaggedConcat(x.key, [pos], rest);
    TaggedConcat(x.key, [x.pos], rest);
    TaggedOne(x.key, pos);
  }

  lemma LinkedDuplicates(dup: seq<Record>, x: Record, pos: int)
    requires DupsOk(dup) && RecordOk(dup, x)
    ensures Duplicates(dup + [Record(x.key, pos, x.dup)], |dup|) == [pos] + Duplicates(dup, x.dup)
  {
    hide DupsOk;
    DuplicatesStay(dup, [Record(x.key, pos, x.dup)], x.dup);
  }

  lemma TaggedOne(key: int, pos: int)
    ensures Tagged(key, [pos]) == [(key, pos)]
  {
    assert [pos][..0] == [];
  }

  lemma {:induction false} LinkedKeepsOk(dup: seq<Record>, contents: Contents, seps: seq<int>, c: nat,
                                         a: seq<Record>, x: Record, b: seq<Record>, pos: int)
    requires ContentsOk(dup, contents, seps) && c < |contents|
    requires contents[c] == a + [x] + b
    ensures ContentsOk(dup + [Record(x.key, pos, x.dup)],
                       contents[c := a + [x.(dup := |dup|)] + b], seps)
  {
    hide RecordOk, Bounded, SepsOk;
    var entry, y := Record(x.key, pos, x.dup), x.(dup := |dup|);
    var dup', rs := dup + [entry], a + [y] + b;
    assert x == contents[c][|a|];
    assert ChainOk(dup, contents[c], seps, c);
    assert RecordOk(dup, x);
    DupsMore(dup, x, pos);
    forall i | 0 <= i < PRIMARY && i != c ensures ChainOk(dup', contents[i], seps, i) {
      assert ChainOk(dup, contents[i], seps, i);
      RecordsMore(dup, entry, contents[i]);
    }
    RecordsMore(dup, entry, contents[c]);
    Relinked(dup', a, x, b, y, seps, c);
  }

  lemma {:induction false} DupsMore(dup: seq<Record>, x: Record, pos: int)
    requires DupsOk(dup) && RecordOk(dup, x)
    ensures var dup' := dup + [Record(x.key, pos, x.dup)];
            DupsOk(dup') && RecordOk(dup', x.(dup := |dup|))
  {
  }

  lemma {:induction false} RecordsMore(dup: seq<Record>, entry: Record, rs: seq<Record>)
    requires RecordsOk(dup, rs)
    ensures RecordsOk(dup + [entry], rs)
  {
  }

  /** A record is replaced by one with the same key. */
  lemma {:induction false} Relinked(dup: seq<Record>, a: seq<Record>, x: Record, b: seq<Record>, y: Record,
                                    seps: seq<int>, c: nat)
    requires ChainOk(dup, a + [x] + b, seps, c) && RecordOk(dup, y) && y.key == x.key
    ensures ChainOk(dup, a + [y] + b, seps, c)
  {
    hide RecordOk;
    var rs, all := a + [y] + b, a + [x] + b;
    assert forall k :: 0 <= k < |rs| ==> rs[k] == if k == |a| then y else all[k];
    assert all[|a|] == x;
  }

  /** A record gets a new entry at the front of its chain of duplicates. */
  lemma {:induction false} DuplicateAdded(dup: seq<Record>, contents: Contents, seps: seq<int>, c: nat,
                                          a: seq<Record>, x: Record, b: seq<Record>, pos: int)
    requires ContentsOk(dup, contents, seps) && c < |contents|
    requires contents[c] == a + [x] + b
    ensures var dup', after := dup + [Record(x.key, pos, x.dup)],
                               contents[c := a + [x.(dup := |dup|)] + b];
            && ContentsOk(dup', after, seps)
            && (Anchored(contents, seps) ==> Anchored(after, seps))
            && Stored(dup', after) == Stored(dup, contents) + multiset{(x.key, pos)}
  {
    LinkedKeepsOk(dup, contents, seps, c, a, x, b, pos);
    StillAnchored(contents, seps, c, a + [x.(dup := |dup|)] + b) by {
      forall key | Has(contents[c], key) ensures Has(a + [x.(dup := |dup|)] + b, key) {
        var k :| 0 <= k < |contents[c]| && contents[c][k].key == key;
        assert (a + [x.(dup := |dup|)] + b)[k].key == key;
      }
    }
    assert ChainOk(dup, contents[c], seps, c);
    assert RecordOk(dup, contents[c][|a|]);
    RecordsOkConcat(dup, contents);
    hide Pairs, Concat, ContentsOk, DupsOk, RecordsOk, Anchored;
    var y := x.(dup := |dup|);
    var p, q := Concat(contents[..c]) + a, b + Concat(contents[c + 1..]);
    ConcatAt(contents, c);
    ConcatUpdated(contents, c, a + [y] + b);
    Sequences.Assoc4(Concat(contents[..c]), a, [x], b, Concat(contents[c + 1..]));
    Sequences.Assoc4(Concat(contents[..c]), a, [y], b, Concat(contents[c + 1..]));
    LinkedMiddle(dup, p, x, q, pos);
  }

  lemma {:induction false} LinkedMiddle(dup: seq<Record>, p: seq<Record>, x: Record, q: seq<Record>, pos: int)
    requires DupsOk(dup) && RecordsOk(dup, p + [x] + q)
    ensures multiset(Pairs(dup + [Record(x.key, pos, x.dup)], p + [x.(dup := |dup|)] + q))
            == multiset(Pairs(dup, p + [x] + q)) + multiset{(x.key, pos)}
  {
    var more, y := [Record(x.key, pos, x.dup)], x.(dup := |dup|);
    SplitOk(dup, p, x, q);
    hide Pairs, RecordsOk;
    Pairs3(dup, p, [x], q);
    Pairs3(dup + more, p, [y], q);
    LinkedPairs(dup, x, pos);
    PairsStay(dup, more, p);
    PairsStay(dup, more, q);
  }

  lemma {:induction false} SplitOk(dup: seq<Record>, p: seq<Record>, x: Record, q: seq<Record>)
    requires RecordsOk(dup, p + [x] + q)
    ensures RecordsOk(dup, p) && RecordOk(dup, x) && RecordsOk(dup, q)
  {
    var all := p + [x] + q;
    assert x == all[|p|];
    assert forall k :: 0 <= k < |p| ==> p[k] == all[k];
    assert forall k :: 0 <= k < |q| ==> q[k] == all[|p| + 1 + k];
  }

  /** A record takes the place of all that its chain holds: that stores one more
      pair exactly when the chain held none. */
  lemma {:induction false} ChainCut(dup: seq<Record>, contents: Contents, c: nat, r: Record)
    requires c < |contents| && r.dup == NONE
    ensures var was, now := Stored(dup, contents), Stored(dup, contents[c := [r]]);
            && now <= was + multiset{(r.key, r.pos)}
            && (now == was + multiset{(r.key, r.pos)} <==> contents[c] == [])
  {
    hide Pairs, Concat;
    var p, rs, q := Concat(contents[..c]), contents[c], Concat(contents[c + 1..]);
    ConcatAt(contents, c);
    ConcatUpdated(contents, c, [r]);
    Pairs3(dup, p, rs, q);
    Pairs3(dup, p, [r], q);
    NewPair(dup, r);
    PairsNone(dup, rs);
    assert |Stored(dup, contents[c := [r]])| == |Pairs(dup, p)| + 1 + |Pairs(dup, q)|;
    assert |Stored(dup, contents)| == |Pairs(dup, p)| + |Pairs(dup, rs)| + |Pairs(dup, q)|;
    if rs == [] {
      assert p + rs + q == p + q;
      AddedMiddle(dup, p, r, q);
    }
  }

  lemma {:induction false} PairsNone(dup: seq<Record>, rs: seq<Record>)
    ensures |Pairs(dup, rs)| == 0 <==> rs == []
  {
    if rs != [] {
      var last := rs[|rs| - 1];
      assert Positions(dup, last) != [];
      assert Tagged(last.key, Positions(dup, last)) != [];
    }
  }

  // What a search finds.

  lemma {:induction false} ScanMore(dup: seq<Record>, rs: seq<Record>, i: nat, b: int, e: int)
    requires i < |rs| && RecordsOk(dup, rs)
    ensures RecordOk(dup, rs[i])
    ensures Scan(dup, rs[..i + 1], b, e)
            == Scan(dup, rs[..i], b, e) + if b <= rs[i].key <= e then Positions(dup, rs[i]) else []
  {
    assert rs[..i + 1][..i] == rs[..i];
  }

  lemma {:induction false} ScanEnds(dup: seq<Record>, rs: seq<Record>, b: int, e: int)
    ensures Scan(dup, [], b, e) == [] && rs[..0] == [] && rs[..|rs|] == rs
  {
  }

  // Chains that a scan does not look into.

  /** What a scan of whole chains sees: nothing on a chain whose first page is
      empty, whatever the pages behind it hold. */
  function Visible(contents: Contents, empty: set<nat>): Contents {
    seq(|contents|, c requires 0 <= c < |contents| => if c in empty then [] else contents[c])
  }

  /** A record in the range, on a chain that is not looked into. */
  ghost predicate Hides(contents: Contents, empty: set<nat>, b: int, e: int) {
    exists c, k :: 0 <= c < |contents| && c in empty && 0 <= k < |contents[c]| && b <= contents[c][k].key <= e
  }

  ghost predicate Clear(rs: seq<Record>, b: int, e: int) {
    forall k :: 0 <= k < |rs| ==> rs[k].key < b || e < rs[k].key
  }

  lemma {:induction false} ScanClear(dup: seq<Record>, rs: seq<Record>, b: int, e: int)
    ensures Scan(dup, rs, b, e) == [] <==> Clear(rs, b, e)
  {
    if rs != [] {
      ScanClear(dup, rs[..|rs| - 1], b, e);
    }
  }

  lemma {:induction false} ScanLast(dup: seq<Record>, contents: Contents, b: int, e: int)
    requires contents != []
    ensures var init, last := contents[..|contents| - 1], contents[|contents| - 1];
            Scan(dup, Concat(contents), b, e) == Scan(dup, Concat(init), b, e) + Scan(dup, last, b, e)
  {
    var n := |contents| - 1;
    ScanConcat(dup, Concat(contents[..n]), contents[n], b, e);
  }

  /** Nothing on the chains from `l` up to `h` is in the range. */
  lemma {:induction false} ScanClearParts(dup: seq<Record>, contents: Contents, l: nat, h: nat, b: int, e: int)
    requires l <= h <= |contents|
    requires forall c :: l <= c < h ==> Clear(contents[c], b, e)
    ensures Scan(dup, Concat(contents[..h]), b, e) == Scan(dup, Concat(contents[..l]), b, e)
  {
    if l < h {
      ScanClearParts(dup, contents, l, h - 1, b, e);
      ScanLast(dup, contents[..h], b, e);
      assert contents[..h][..h - 1] == contents[..h - 1];
      ScanClear(dup, contents[h - 1], b, e);
    }
  }

  /** What is seen of the first `n` chains is all there is to find on them
      exactly when none of them hides anything. */
  lemma {:induction false} VisibleIsAll(dup: seq<Record>, contents: Contents, empty: set<nat>, b: int, e: int, n: nat)
    requires n <= |contents|
    ensures var all, seen := Scan(dup, Concat(contents[..n]), b, e),
                             Scan(dup, Concat(Visible(contents, empty)[..n]), b, e);
            && |seen| <= |all| && multiset(seen) <= multiset(all)
            && if Hides(contents[..n], empty, b, e) then |seen| < |all| else seen == all
  {
    hide Scan, Concat;
    if n > 0 {
      var c, visible := n - 1, Visible(contents, empty);
      VisibleIsAll(dup, contents, empty, b, e, c);
      ScanLast(dup, contents[..n], b, e);
      ScanLast(dup, visible[..n], b, e);
      assert contents[..n][..c] == contents[..c] && visible[..n][..c] == visible[..c];
      ScanClear(dup, contents[c], b, e);
      ScanClear(dup, [], b, e);
      HidesOne(contents, empty, b, e, c);
    }
  }

  lemma {:induction false} HidesOne(contents: Contents, empty: set<nat>, b: int, e: int, c: nat)
    requires c < |contents|
    ensures Hides(contents[..c + 1], empty, b, e)
            <==> Hides(contents[..c], empty, b, e) || (c in empty && !Clear(contents[c], b, e))
  {
    var more, fewer := contents[..c + 1], contents[..c];
    if Hides(fewer, empty, b, e) {
      var i, k :| 0 <= i < |fewer| && i in empty && 0 <= k < |fewer[i]| && b <= fewer[i][k].key <= e;
      assert more[i] == fewer[i];
    }
    if c in empty && !Clear(contents[c], b, e) {
      var k :| 0 <= k < |contents[c]| && b <= contents[c][k].key <= e;
      assert more[c] == contents[c];
    }
    if Hides(more, empty, b, e) {
      var i, k :| 0 <= i < |more| && i in empty && 0 <= k < |more[i]| && b <= more[i][k].key <= e;
      assert i < c ==> fewer[i] == more[i];
    }
  }

  /** A scan may stop behind chain `d - 1`: the range is empty, or that chain
      ends past it. */
  ghost predicate MayStop(contents: Contents, d: nat, b: int, e: int) {
    d < |contents| ==>
      e < b || (0 < d && var last := contents[d - 1]; last != [] && e < last[|last| - 1].key)
  }

  /** Chains before `c` lie below their next separator, those from `d` above. */
  lemma {:induction false} OutOfRange(dup: seq<Record>, contents: Contents, seps: seq<int>, c: nat, d: nat,
                                      b: int, e: int, i: nat)
    requires ContentsOk(dup, contents, seps) && c <= d <= PRIMARY && c < PRIMARY
    requires c > 0 ==> seps[c - 1] < b
    requires MayStop(contents, d, b, e)
    requires i < c || d <= i < PRIMARY
    ensures Clear(contents[i], b, e)
  {
    assert ChainOk(dup, contents[i], seps, i);
    if i < c {
      assert seps[i] <= seps[c - 1];
    } else if b <= e {
      assert ChainOk(dup, contents[d - 1], seps, d - 1);
      assert seps[d - 1] <= seps[i - 1];
    }
  }

  lemma {:induction false} RestClear(dup: seq<Record>, contents: Contents, seps: seq<int>, empty: set<nat>,
                                     c: nat, d: nat, b: int, e: int)
    requires ContentsOk(dup, contents, seps) && c <= d <= PRIMARY && c < PRIMARY
    requires c > 0 ==> seps[c - 1] < b
    requires MayStop(contents, d, b, e)
    ensures var visible := Visible(contents, empty);
            |visible| == PRIMARY && forall i :: 0 <= i < c || d <= i < PRIMARY ==> Clear(visible[i], b, e)
  {
    var visible := Visible(contents, empty);
    forall i | 0 <= i < c || d <= i < PRIMARY ensures Clear(visible[i], b, e) {
      OutOfRange(dup, contents, seps, c, d, b, e, i);
    }
  }

  /** A scan of the chains from the one found with `<` up to one behind which it
      may stop sees all that can be seen. */
  lemma {:induction false} RangeIsExact(dup: seq<Record>, contents: Contents, seps: seq<int>, empty: set<nat>,
                                        c: nat, d: nat, b: int, e: int)
    requires ContentsOk(dup, contents, seps) && c <= d <= PRIMARY && c < PRIMARY
    requires c > 0 ==> seps[c - 1] < b
    requires MayStop(contents, d, b, e)
    ensures var visible := Visible(contents, empty);
            Scan(dup, Concat(visible[c..d]), b, e) == Scan(dup, Concat(visible), b, e)
  {
    hide Scan, Concat, ContentsOk, Visible, Clear;
    var visible := Visible(contents, empty);
    RestClear(dup, contents, seps, empty, c, d, b, e);
    ScanClearParts(dup, visible, d, PRIMARY, b, e);
    ScanClearParts(dup, visible, 0, c, b, e);
    assert visible[..PRIMARY] == visible && visible[..d] == visible[..c] + visible[c..d];
    ConcatParts(visible[..c], visible[c..d]);
    ScanConcat(dup, Concat(visible[..c]), Concat(visible[c..d]), b, e);
    NoneScanned(dup, visible, b, e);
  }

  lemma {:induction false} NoneScanned(dup: seq<Record>, contents: Contents, b: int, e: int)
    ensures Scan(dup, Concat(contents[..0]), b, e) == []
  {
  }

  /** What can be seen is all there is in the range exactly when no chain hides
      a record in it. */
  lemma {:induction false} SeenIsAllIff(dup: seq<Record>, contents: Contents, empty: set<nat>, b: int, e: int)
    ensures var seen, all := InRange(Pairs(dup, Concat(Visible(contents, empty))), b, e),
                             InRange(Pairs(dup, Concat(contents)), b, e);
            && multiset(seen) <= multiset(all)
            && (multiset(seen) == multiset(all) <==> !Hides(contents, empty, b, e))
            && (!Hides(contents, empty, b, e) ==> seen == all)
  {
    var visible := Visible(contents, empty);
    VisibleIsAll(dup, contents, empty, b, e, |contents|);
    assert contents[..|contents|] == contents && visible[..|contents|] == visible;
    ScanIsInRange(dup, Concat(contents), b, e);
    ScanIsInRange(dup, Concat(visible), b, e);
    hide Scan, Concat, InRange, Pairs, Hides, Visible;
    var seen, all := InRange(Pairs(dup, Concat(visible)), b, e), InRange(Pairs(dup, Concat(contents)), b, e);
    assert |multiset(seen)| == |seen| && |multiset(all)| == |all|;
  }
}
