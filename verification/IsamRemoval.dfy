/** What a search for one key finds, and what a removal leaves. */
module IsamRemoval {
  import Sequences
  import opened IsamModel
  import opened IsamContents
  import opened IsamChains
  import opened IsamPages

  // Search for one key.

  /** The positions under the first record with the key. */
  function Matching(dup: seq<Record>, rs: seq<Record>, key: int): seq<int> {
    if rs == [] then []
    else if rs[0].key == key then Positions(dup, rs[0])
    else Matching(dup, rs[1..], key)
  }

  lemma {:induction false} MatchingAt(dup: seq<Record>, rs: seq<Record>, key: int, k: nat)
    requires k <= |rs|
    requires forall i :: 0 <= i < k ==> rs[i].key != key
    ensures Matching(dup, rs, key)
            == if k == |rs| then [] else if rs[k].key == key then Positions(dup, rs[k])
               else Matching(dup, rs[k + 1..], key)
  {
    if k > 0 {
      MatchingAt(dup, rs[1..], key, k - 1);
      if k < |rs| {
        assert rs[1..][k..] == rs[k + 1..];
      }
    }
  }

  /** The search of one page of a chain, after pages without the key. */
  lemma {:induction false} PageSearched(dup: seq<Record>, a: seq<Record>, l: seq<Record>, b: seq<Record>,
                                        key: int, i: nat)
    requires !Has(a, key) && FirstAt(l, key, i) && RecordsOk(dup, a + l + b)
    ensures i < |l| ==> RecordOk(dup, l[i])
    ensures i == |l| ==> !Has(a + l, key)
    ensures i < |l| ==> Matching(dup, a + l + b, key) == Positions(dup, l[i])
  {
    hide Matching, Positions, Has;
    PartOk(dup, a, l, b);
    HasConcat(a, l, key);
    NoneBefore(l, key, i);
    Sequences.Assoc(a, l, b);
    MatchingPast(dup, a, l + b, key);
    if i < |l| {
      assert forall k :: 0 <= k <= i ==> (l + b)[k] == l[k];
      MatchingAt(dup, l + b, key, i);
    }
  }

  lemma {:induction false} NoneBefore(rs: seq<Record>, key: int, i: nat)
    requires FirstAt(rs, key, i)
    ensures i == |rs| ==> !Has(rs, key)
  {
  }

  lemma {:induction false} MatchingPast(dup: seq<Record>, a: seq<Record>, b: seq<Record>, key: int)
    requires !Has(a, key)
    ensures Matching(dup, a + b, key) == Matching(dup, b, key)
  {
    assert forall k :: 0 <= k < |a| ==> (a + b)[k] == a[k];
    MatchingAt(dup, a + b, key, |a|);
    MatchingAt(dup, b, key, 0);
    assert b[0..] == b;
    if b != [] {
      assert (a + b)[|a|] == b[0] && (a + b)[|a| + 1..] == b[1..];
    }
  }

  lemma {:induction false} MatchingIs(dup: seq<Record>, rs: seq<Record>, key: int)
    ensures Matching(dup, rs, key) != [] <==> Has(rs, key)
    ensures multiset(Matching(dup, rs, key)) <= multiset(Scan(dup, rs, key, key))
  {
    if rs != [] {
      var one, rest := [rs[0]], rs[1..];
      MatchingIs(dup, rest, key);
      HasRest(rs, key);
      assert Scan(dup, one, key, key) == if rs[0].key == key then Positions(dup, rs[0]) else [] by {
        assert one[..0] == [];
      }
      hide Scan, Has, Positions;
      ScanConcat(dup, one, rest, key, key);
      assert rs == one + rest;
    }
  }

  lemma {:induction false} HasRest(rs: seq<Record>, key: int)
    requires rs != []
    ensures Has(rs, key) <==> rs[0].key == key || Has(rs[1..], key)
  {
    if Has(rs, key) {
      var k :| 0 <= k < |rs| && rs[k].key == key;
      assert k > 0 ==> rs[1..][k - 1].key == key;
    }
    if Has(rs[1..], key) {
      var k :| 0 <= k < |rs| - 1 && rs[1..][k].key == key;
      assert rs[k + 1].key == key;
    }
  }

  lemma {:induction false} HasConcat(a: seq<Record>, b: seq<Record>, key: int)
    ensures Has(a + b, key) <==> Has(a, key) || Has(b, key)
  {
    if Has(a, key) {
      var k :| 0 <= k < |a| && a[k].key == key;
      assert (a + b)[k].key == key;
    }
    if Has(b, key) {
      var k :| 0 <= k < |b| && b[k].key == key;
      assert (a + b)[|a| + k].key == key;
    }
  }

  /** At most one record has the key. */
  ghost predicate AtMostOne(rs: seq<Record>, key: int) {
    forall i, j :: 0 <= i < j < |rs| ==> rs[i].key != key || rs[j].key != key
  }

  lemma {:induction false} AtMostOneConcat(a: seq<Record>, b: seq<Record>, key: int)
    ensures AtMostOne(a + b, key) <==> AtMostOne(a, key) && AtMostOne(b, key) && !(Has(a, key) && Has(b, key))
  {
    var all := a + b;
    assert forall i :: 0 <= i < |a| ==> all[i] == a[i];
    assert forall i :: 0 <= i < |b| ==> all[|a| + i] == b[i];
    if AtMostOne(a, key) && AtMostOne(b, key) && !(Has(a, key) && Has(b, key)) {
      forall i, j | 0 <= i < j < |all| ensures all[i].key != key || all[j].key != key {
        if i < |a| <= j && a[i].key == key {
          assert !Has(b, key);
          assert b[j - |a|].key != key;
        }
      }
    }
  }

  lemma NoneThere(dup: seq<Record>, key: int)
    ensures Scan(dup, [], key, key) == [] && AtMostOne([], key)
  {
  }

  lemma ScanOne(dup: seq<Record>, r: Record, key: int)
    ensures Scan(dup, [r], key, key) == if r.key == key then Positions(dup, r) else []
    ensures Positions(dup, r) != []
  {
    assert [r][..0] == [];
  }

  /** Only the first record with the key is looked at. */
  lemma {:induction false} MatchingIsAll(dup: seq<Record>, rs: seq<Record>, key: int)
    ensures multiset(Matching(dup, rs, key)) == multiset(Scan(dup, rs, key, key)) <==> AtMostOne(rs, key)
  {
    hide Scan, Has, Positions, AtMostOne;
    if rs == [] {
      NoneThere(dup, key);
    } else {
      var one, rest := [rs[0]], rs[1..];
      assert rs == one + rest;
      MatchingIsAll(dup, rest, key);
      AtMostOneConcat(one, rest, key);
      ScanConcat(dup, one, rest, key, key);
      HasOne(rs[0], key);
      ScanHas(dup, rest, key);
      ScanOne(dup, rs[0], key);
      NoneTwice(rest, key);
      if rs[0].key == key {
        var ps, more := Positions(dup, rs[0]), Scan(dup, rest, key, key);
        assert |multiset(ps + more)| == |ps| + |more| && |multiset(ps)| == |ps|;
        assert more == [] ==> ps + more == ps;
      } else {
        assert [] + Scan(dup, rest, key, key) == Scan(dup, rest, key, key);
      }
    }
  }

  lemma {:induction false} HasOne(r: Record, key: int)
    ensures Has([r], key) <==> r.key == key
    ensures AtMostOne([r], key)
  {
    assert [r][0] == r;
  }

  lemma {:induction false} ScanHas(dup: seq<Record>, rs: seq<Record>, key: int)
    ensures Scan(dup, rs, key, key) == [] <==> !Has(rs, key)
  {
    ScanClear(dup, rs, key, key);
  }

  /** What is found on other chains lies below the one on the key's route, and
      only if the key is the separator between. */
  lemma {:induction false} RouteHas(dup: seq<Record>, contents: Contents, seps: seq<int>, key: int, c: nat)
    requires ContentsOk(dup, contents, seps) && IsRoute(seps, key, c)
    ensures !Has(Concat(contents[c + 1..]), key)
    ensures Has(Concat(contents[..c]), key) ==> c > 0 && seps[c - 1] == key
    ensures Has(Concat(contents), key)
            <==> Has(Concat(contents[..c]), key) || Has(contents[c], key)
    ensures Anchored(contents, seps) ==> (Has(Concat(contents), key) <==> Has(contents[c], key))
  {
    var low, high := Concat(contents[..c]), Concat(contents[c + 1..]);
    forall k | 0 <= k < |low| ensures c > 0 && low[k].key <= seps[c - 1] {
      ConcatFrom(contents[..c], low[k]);
      var i :| 0 <= i < c && low[k] in contents[..c][i];
      assert ChainOk(dup, contents[i], seps, i);
      assert seps[i] <= seps[c - 1];
    }
    forall k | 0 <= k < |high| ensures key < high[k].key {
      ConcatFrom(contents[c + 1..], high[k]);
      var i :| 0 <= i < |contents| - c - 1 && high[k] in contents[c + 1..][i];
      assert ChainOk(dup, contents[c + 1 + i], seps, c + 1 + i);
      assert seps[c] <= seps[c + i];
    }
    ConcatAt(contents, c);
    HasConcat(low, contents[c], key);
    HasConcat(low + contents[c], high, key);
  }

  /** A search for one key finds nothing that a search for the range from the
      key to itself does not, and finds something exactly when its chain has the
      key: as long as each chain holds the separator before it, when any has. */
  lemma {:induction false} SearchIsExact(dup: seq<Record>, contents: Contents, seps: seq<int>, key: int, c: nat)
    requires ContentsOk(dup, contents, seps) && IsRoute(seps, key, c)
    ensures var found := Matching(dup, contents[c], key);
            && multiset(found) <= multiset(InRange(Pairs(dup, Concat(contents)), key, key))
            && (found != [] <==> Has(contents[c], key))
            && (Has(Concat(contents), key) <==> exists pos :: (key, pos) in Stored(dup, contents))
            && (Anchored(contents, seps) ==>
                  (found != [] <==> exists pos :: (key, pos) in Stored(dup, contents))
                  && (found != [] || !Has(Concat(contents), key)))
  {
    var all := Concat(contents);
    RouteHas(dup, contents, seps, key, c);
    MatchingIs(dup, contents[c], key);
    PairsHave(dup, all, key);
    hide Concat, Scan, InRange, Pairs;
    ConcatAt(contents, c);
    var p, q := Concat(contents[..c]), Concat(contents[c + 1..]);
    ScanConcat(dup, p, contents[c], key, key);
    ScanConcat(dup, p + contents[c], q, key, key);
    ScanIsInRange(dup, all, key, key);
    forall pos ensures (key, pos) in Stored(dup, contents) <==> (key, pos) in Pairs(dup, all) {
    }
  }

  /** What a search finds is all that is stored under the key exactly when at most
      one record has it. */
  lemma {:induction false} SearchIsAllIff(dup: seq<Record>, contents: Contents, seps: seq<int>, key: int, c: nat)
    requires ContentsOk(dup, contents, seps) && IsRoute(seps, key, c)
    ensures var found, all := Matching(dup, contents[c], key), Concat(contents);
            found != [] || !Has(all, key) ==>
              (multiset(found) == multiset(InRange(Pairs(dup, all), key, key)) <==> AtMostOne(all, key))
  {
    hide Concat, Scan, InRange, Pairs, AtMostOne, Has, Matching;
    var found, all := Matching(dup, contents[c], key), Concat(contents);
    var p, q := Concat(contents[..c]), Concat(contents[c + 1..]);
    ConcatAt(contents, c);
    MatchingIs(dup, contents[c], key);
    MatchingIsAll(dup, contents[c], key);
    ScanConcat(dup, p, contents[c], key, key);
    ScanConcat(dup, p + contents[c], q, key, key);
    ScanIsInRange(dup, all, key, key);
    AtMostOneConcat(p, contents[c], key);
    AtMostOneConcat(p + contents[c], q, key);
    HasConcat(p, contents[c], key);
    HasConcat(p + contents[c], q, key);
    ScanHas(dup, p, key);
    ScanHas(dup, q, key);
    NoneTwice(p, key);
    NoneTwice(q, key);
    var l, m, r := Scan(dup, p, key, key), Scan(dup, contents[c], key, key), Scan(dup, q, key, key);
    assert |multiset(l + m + r)| == |l| + |m| + |r| && |multiset(found)| == |found|;
    assert |multiset(m)| == |m|;
    if l == [] && r == [] {
      assert l + m + r == m;
    }
  }

  lemma {:induction false} NoneTwice(rs: seq<Record>, key: int)
    ensures !Has(rs, key) ==> AtMostOne(rs, key)
  {
  }

  lemma {:induction false} TaggedHas(key: int, ps: seq<int>, pair: Pair)
    ensures pair in Tagged(key, ps) <==> pair.0 == key && pair.1 in ps
  {
    if ps != [] {
      TaggedHas(key, ps[..|ps| - 1], pair);
      assert ps == ps[..|ps| - 1] + [ps[|ps| - 1]];
    }
  }

  lemma {:induction false} PairsHave(dup: seq<Record>, rs: seq<Record>, key: int)
    ensures (exists pos :: (key, pos) in Pairs(dup, rs)) <==> Has(rs, key)
  {
    if rs != [] {
      var init, last := rs[..|rs| - 1], rs[|rs| - 1];
      PairsHave(dup, init, key);
      HasConcat(init, [last], key);
      HasOne(last, key);
      assert rs == init + [last];
      var ps := Positions(dup, last);
      forall pos ensures (key, pos) in Tagged(last.key, ps) <==> last.key == key && pos in ps {
        TaggedHas(last.key, ps, (key, pos));
      }
      assert last.pos in ps;
      hide Tagged, Has, Positions;
      assert Pairs(dup, rs) == Pairs(dup, init) + Tagged(last.key, ps);
      assert last.key == key ==> (key, last.pos) in Pairs(dup, rs);
      if pos :| (key, pos) in Pairs(dup, init) {
        assert (key, pos) in Pairs(dup, rs);
      }
    }
  }

  // Removal from a page.

  /** The records of a page after the removal loop, from slot `i` on: once it has
      taken a record out, it does not look at the one that moved into its slot. */
  function Purge(rs: seq<Record>, i: nat, key: int): seq<Record>
    decreases |rs| - i
  {
    if i >= |rs| then rs
    else if rs[i].key == key then Purge(rs[..i] + rs[i + 1..], i + 1, key)
    else Purge(rs, i + 1, key)
  }

  /** The position that the removal loop reports. */
  function Deleted(rs: seq<Record>, i: nat, key: int, last: int): int
    decreases |rs| - i
  {
    if i >= |rs| then last
    else if rs[i].key == key then Deleted(rs[..i] + rs[i + 1..], i + 1, key, rs[i].pos)
    else Deleted(rs, i + 1, key, last)
  }

  /** The records with other keys. */
  function Others(rs: seq<Record>, key: int): seq<Record> {
    if rs == [] then []
    else
      var last := rs[|rs| - 1];
      Others(rs[..|rs| - 1], key) + if last.key == key then [] else [last]
  }

  lemma {:induction false} OthersConcat(a: seq<Record>, b: seq<Record>, key: int)
    ensures Others(a + b, key) == Others(a, key) + Others(b, key)
  {
    Sequences.Snoc(a, b);
    if b != [] {
      OthersConcat(a, b[..|b| - 1], key);
    }
  }

  lemma {:induction false} OthersOne(r: Record, key: int)
    ensures Others([r], key) == if r.key == key then [] else [r]
  {
    assert [r][..0] == [];
  }

  lemma {:induction false} OthersNone(rs: seq<Record>, key: int)
    ensures Others(rs, key) == [] <==> forall k :: 0 <= k < |rs| ==> rs[k].key == key
  {
    if rs != [] {
      OthersNone(rs[..|rs| - 1], key);
    }
  }

  lemma {:induction false} PurgeKeepsOthers(rs: seq<Record>, i: nat, key: int)
    ensures Others(Purge(rs, i, key), key) == Others(rs, key)
    ensures |Purge(rs, i, key)| <= |rs|
    decreases |rs| - i
  {
    if i < |rs| {
      if rs[i].key == key {
        PurgeKeepsOthers(rs[..i] + rs[i + 1..], i + 1, key);
        hide Others;
        Sequences.At(rs, i);
        OthersConcat(rs[..i], rs[i + 1..], key);
        OthersConcat(rs[..i], [rs[i]], key);
        OthersConcat(rs[..i] + [rs[i]], rs[i + 1..], key);
        OthersOne(rs[i], key);
      } else {
        PurgeKeepsOthers(rs, i + 1, key);
      }
    }
  }

  /** Two records with the key, one right behind the other, from slot `i` on. */
  predicate Twice(rs: seq<Record>, i: nat, key: int) {
    exists k :: i <= k < |rs| - 1 && rs[k].key == key == rs[k + 1].key
  }

  lemma {:induction false} PurgeBelow(rs: seq<Record>, i: nat, key: int)
    requires i <= |rs|
    ensures |Purge(rs, i, key)| >= i && Purge(rs, i, key)[..i] == rs[..i]
    decreases |rs| - i
  {
    if i < |rs| {
      if rs[i].key != key {
        PurgeBelow(rs, i + 1, key);
        assert Purge(rs, i, key)[..i] == Purge(rs, i, key)[..i + 1][..i];
      } else if i + 1 < |rs| {
        var rest := rs[..i] + rs[i + 1..];
        PurgeBelow(rest, i + 1, key);
        assert Purge(rest, i + 1, key)[..i] == Purge(rest, i + 1, key)[..i + 1][..i];
      }
    }
  }

  /** The loop takes out all records with the key exactly when no two of them
      stand side by side. */
  lemma {:induction false} PurgeClearsIff(rs: seq<Record>, i: nat, key: int)
    requires i <= |rs| && forall k :: 0 <= k < i ==> rs[k].key != key
    ensures Has(Purge(rs, i, key), key) <==> Twice(rs, i, key)
    decreases |rs| - i
  {
    if i < |rs| {
      if rs[i].key != key {
        PurgeClearsIff(rs, i + 1, key);
        assert Twice(rs, i, key) <==> Twice(rs, i + 1, key);
      } else {
        var rest := rs[..i] + rs[i + 1..];
        if i + 1 < |rs| && rs[i + 1].key == key {
          assert Twice(rs, i, key);
          PurgeBelow(rest, i + 1, key);
          assert Purge(rest, i + 1, key)[i] == rest[i];
        } else if i + 1 < |rs| {
          PurgeClearsIff(rest, i + 1, key);
          if k :| i <= k < |rs| - 1 && rs[k].key == key == rs[k + 1].key {
            assert rest[k - 1].key == key == rest[k].key;
          }
          if k :| i + 1 <= k < |rest| - 1 && rest[k].key == key == rest[k + 1].key {
            assert rs[k + 1].key == key == rs[k + 2].key;
          }
        }
      }
    }
  }

  // Removal from a chain.

  lemma {:induction false} ReachedIs(dt: seq<Page>, chain: seq<int>, k: nat, key: int, i: nat)
    requires PagesOk(dt, chain)
    requires k <= |chain| && k <= i < Reached(dt, chain, k, key)
    ensures PassedOver(dt[chain[i]], key)
    decreases i - k
  {
    if k < i {
      ReachedIs(dt, chain, k + 1, key, i);
    }
  }

  /** The head page is linked past all the pages before the emptied one. */
  predicate Loses(dt: seq<Page>, chain: seq<int>, key: int)
    requires PagesOk(dt, chain)
  {
    var k := Reached(dt, chain, 0, key);
    && 2 <= k < |chain|
    && Deleted(Live(dt[chain[k]]), 0, key, NONE) != NONE
    && Purge(Live(dt[chain[k]]), 0, key) == []
  }

  /** What a removal leaves on its chain. */
  function Left(dt: seq<Page>, chain: seq<int>, key: int): seq<Record>
    requires PagesOk(dt, chain)
  {
    var k := Reached(dt, chain, 0, key);
    if k == |chain| || Deleted(Live(dt[chain[k]]), 0, key, NONE) == NONE then Recs(dt, chain)
    else if Loses(dt, chain, key) then Live(dt[chain[0]]) + Recs(dt, chain[k + 1..])
    else Recs(dt, chain[..k]) + Purge(Live(dt[chain[k]]), 0, key) + Recs(dt, chain[k + 1..])
  }

  /** The positions that a removal reports: that of the last record it took out. */
  function Reported(dt: seq<Page>, chain: seq<int>, key: int): seq<int>
    requires PagesOk(dt, chain)
  {
    var k := Reached(dt, chain, 0, key);
    if k == |chain| then []
    else
      var last := Deleted(Live(dt[chain[k]]), 0, key, NONE);
      if last == NONE then [] else [last]
  }

  /** A removal that empties the first page of its chain. */
  predicate Empties(dt: seq<Page>, chain: seq<int>, key: int)
    requires PagesOk(dt, chain)
  {
    && 0 < |chain| && Reached(dt, chain, 0, key) == 0
    && Deleted(Live(dt[chain[0]]), 0, key, NONE) != NONE
    && Purge(Live(dt[chain[0]]), 0, key) == []
  }

  /** A record with the key is left: the page the walk stops at has none to take
      out, or has two side by side, or another page that stays has one. */
  ghost predicate Remains(dt: seq<Page>, chain: seq<int>, key: int)
    requires PagesOk(dt, chain)
  {
    var k := Reached(dt, chain, 0, key);
    if k == |chain| || Deleted(Live(dt[chain[k]]), 0, key, NONE) == NONE then Has(Recs(dt, chain), key)
    else
      || Twice(Live(dt[chain[k]]), 0, key)
      || Has(Recs(dt, if Loses(dt, chain, key) then chain[..1] else chain[..k]), key)
      || Has(Recs(dt, chain[k + 1..]), key)
  }

  lemma {:induction false} RemainsIff(dt: seq<Page>, chain: seq<int>, key: int)
    requires PagesOk(dt, chain)
    ensures Has(Left(dt, chain, key), key) <==> Remains(dt, chain, key)
  {
    hide Recs, Reached, Purge, Deleted, Has, Twice;
    var k := Reached(dt, chain, 0, key);
    if k < |chain| {
      var l, after := Live(dt[chain[k]]), Recs(dt, chain[k + 1..]);
      PurgeClearsIff(l, 0, key);
      if Loses(dt, chain, key) {
        RecsOne(dt, chain[0]);
        assert chain[..1] == [chain[0]];
        HasConcat(Live(dt[chain[0]]), after, key);
        HasNone(key);
      } else {
        HasConcat(Recs(dt, chain[..k]), Purge(l, 0, key), key);
        HasConcat(Recs(dt, chain[..k]) + Purge(l, 0, key), after, key);
      }
    }
  }

  lemma {:induction false} HasNone(key: int)
    ensures !Has([], key)
  {
  }

  /** What is reported is the position of a record with the key. */
  lemma {:induction false} DeletedIs(rs: seq<Record>, i: nat, key: int, last: int)
    ensures var d := Deleted(rs, i, key, last);
            d == last || exists r :: r in rs && r.key == key && r.pos == d
    decreases |rs| - i
  {
    if i < |rs| {
      if rs[i].key == key {
        DeletedIs(rs[..i] + rs[i + 1..], i + 1, key, rs[i].pos);
      } else {
        DeletedIs(rs, i + 1, key, last);
      }
    }
  }

  lemma {:induction false} OthersAt(dt: seq<Page>, chain: seq<int>, k: nat, key: int)
    requires PagesOk(dt, chain) && k < |chain|
    ensures Others(Recs(dt, chain), key)
            == Others(Recs(dt, chain[..k]), key) + Others(Live(dt[chain[k]]), key)
               + Others(Recs(dt, chain[k + 1..]), key)
  {
    hide Others, Recs;
    RecsAt(dt, chain, k);
    OthersConcat(Recs(dt, chain[..k]), Live(dt[chain[k]]), key);
    OthersConcat(Recs(dt, chain[..k]) + Live(dt[chain[k]]), Recs(dt, chain[k + 1..]), key);
  }

  lemma {:induction false} OthersLost(dt: seq<Page>, chain: seq<int>, key: int)
    requires PagesOk(dt, chain) && Loses(dt, chain, key)
    ensures |Others(Left(dt, chain, key), key)| < |Others(Recs(dt, chain), key)|
  {
    var k := Reached(dt, chain, 0, key);
    ReachedIs(dt, chain, 0, key, 1);
    var q := Live(dt[chain[1]]);
    OthersNone(q, key);
    assert |Others(q, key)| > 0 by { assert q[|q| - 1].key < key; }
    var rest := chain[..k];
    assert PagesOk(dt, rest);
    hide Others, Recs, Reached, Purge, Deleted, PagesOk, PassedOver;
    OthersAt(dt, chain, k, key);
    OthersAt(dt, rest, 1, key);
    assert rest[..1] == [chain[0]];
    RecsOne(dt, chain[0]);
    OthersConcat(Live(dt[chain[0]]), Recs(dt, chain[k + 1..]), key);
    var a, b, c := Others(Live(dt[chain[0]]), key), Others(q, key), Others(Recs(dt, rest[1 + 1..]), key);
    assert |Others(Recs(dt, rest), key)| == |a| + |b| + |c|;
  }

  /** Records with other keys survive a removal, in their order, exactly unless
      it empties the third page of a chain or a later one. */
  lemma {:induction false} OthersSurviveIff(dt: seq<Page>, chain: seq<int>, key: int)
    requires |chain| > 0 && PagesOk(dt, chain)
    ensures Others(Left(dt, chain, key), key) == Others(Recs(dt, chain), key) <==> !Loses(dt, chain, key)
  {
    var k := Reached(dt, chain, 0, key);
    if Loses(dt, chain, key) {
      OthersLost(dt, chain, key);
    } else if k < |chain| {
      var l := Live(dt[chain[k]]);
      PurgeKeepsOthers(l, 0, key);
      hide Others, Recs, Reached, Purge, Deleted;
      var p := Purge(l, 0, key);
      OthersAt(dt, chain, k, key);
      OthersConcat(Recs(dt, chain[..k]), p, key);
      OthersConcat(Recs(dt, chain[..k]) + p, Recs(dt, chain[k + 1..]), key);
    }
  }

  lemma {:induction false} OnlyOne(r: Record)
    ensures Purge([r], 0, r.key) == [] && Deleted([r], 0, r.key, NONE) == r.pos
  {
    assert [r][..0] + [r][1..] == [];
  }

  /** A search for another key sees only the records with other keys. */
  lemma {:induction false} MatchingOthers(dup: seq<Record>, rs: seq<Record>, key: int, other: int)
    requires other != key
    ensures Matching(dup, Others(rs, key), other) == Matching(dup, rs, other)
  {
    if rs != [] {
      var rest := Others(rs[1..], key);
      MatchingOthers(dup, rs[1..], key, other);
      OthersConcat([rs[0]], rs[1..], key);
      OthersOne(rs[0], key);
      assert rs == [rs[0]] + rs[1..];
      if rs[0].key != key {
        assert Others(rs, key) == [rs[0]] + rest;
        assert ([rs[0]] + rest)[1..] == rest;
      } else {
        assert Others(rs, key) == rest;
      }
    }
  }

  lemma {:induction false} PurgeTakesFrom(rs: seq<Record>, i: nat, key: int, r: Record)
    requires r in Purge(rs, i, key)
    ensures r in rs
    decreases |rs| - i
  {
    if i < |rs| {
      if rs[i].key == key {
        PurgeTakesFrom(rs[..i] + rs[i + 1..], i + 1, key, r);
      } else {
        PurgeTakesFrom(rs, i + 1, key, r);
      }
    }
  }

  /** Nothing appears on a chain through a removal. */
  lemma {:induction false} LeftTakesFrom(dt: seq<Page>, chain: seq<int>, key: int, r: Record)
    requires |chain| > 0 && PagesOk(dt, chain) && r in Left(dt, chain, key)
    ensures r in Recs(dt, chain)
  {
    var k := Reached(dt, chain, 0, key);
    if k < |chain| {
      hide Recs, Purge, Deleted, Reached;
      RecsAt(dt, chain, k);
      if r in Purge(Live(dt[chain[k]]), 0, key) {
        PurgeTakesFrom(Live(dt[chain[k]]), 0, key, r);
      }
      RecsAt(dt, chain, 0);
      assert chain[..0] == [];
      RecsNone(dt);
    }
  }

  /** The next page hands its first record to the page before it. */
  lemma {:induction false} PageBorrows(dt: seq<Page>, chains: seq<seq<int>>, c: nat, k: nat, page: Page, next: Page)
    requires ChainsOk(dt, chains) && c < |chains| && k + 1 < |chains[c]|
    requires LinkAt(dt, chains[c], k) && LinkAt(dt, chains[c], k + 1)
    requires Filled(page) && page.next == dt[chains[c][k]].next
    requires Filled(next) && next.next == dt[chains[c][k + 1]].next
    ensures var chain := chains[c];
            var dt' := dt[chain[k + 1] := next][chain[k] := page];
            && ChainsOk(dt', chains)
            && ContentsOf(dt', chains)
               == ContentsOf(dt, chains)[c := Recs(dt, chain[..k]) + (Live(page) + Live(next))
                                              + Recs(dt, chain[k + 2..])]
  {
    hide ChainsOk, ContentsOf, Recs, Linked;
    var chain := chains[c];
    var dt1 := dt[chain[k + 1] := next];
    var dt' := dt1[chain[k] := page];
    OneChain(dt, chains, c);
    ContentsAt(dt, chains, c, k);
    PageReplaced(dt, chains, c, k + 1, next);
    ContentsAt(dt1, chains, c, k);
    PageReplaced(dt1, chains, c, k, page);
    var contents, contents1 := ContentsOf(dt, chains), ContentsOf(dt1, chains);
    RecsBorrowed(dt, chain, k, next);
    var x, z := Recs(dt, chain[..k]), Recs(dt, chain[k + 2..]);
    assert ContentsOf(dt', chains) == contents1[c := x + Live(page) + (Live(next) + z)];
    assert x + Live(page) + (Live(next) + z) == x + (Live(page) + Live(next)) + z;
  }

  lemma {:induction false} RecsBorrowed(dt: seq<Page>, chain: seq<int>, k: nat, next: Page)
    requires Linked(dt, chain) && Distinct(chain) && k + 1 < |chain| && LinkAt(dt, chain, k + 1)
    requires Filled(next)
    ensures var dt1 := dt[chain[k + 1] := next];
            && Recs(dt1, chain[..k]) == Recs(dt, chain[..k])
            && Recs(dt1, chain[k + 1..]) == Live(next) + Recs(dt, chain[k + 2..])
  {
    hide Recs;
    var dt1, rest := dt[chain[k + 1] := next], chain[k + 1..];
    forall i | 0 <= i < |chain| && i != k + 1
      ensures 0 <= chain[i] < |dt| && dt1[chain[i]] == dt[chain[i]]
    {
      assert LinkAt(dt, chain, i);
    }
    RecsStay(dt, dt1, chain[..k]);
    RecsStay(dt, dt1, chain[k + 2..]);
    RecsAt(dt1, rest, 0);
    assert rest[..0] == [] && rest[0 + 1..] == chain[k + 2..];
    RecsNone(dt1);
  }

  /** The walk of a removal, at page `k`. */
  lemma {:induction false} Walks(dt: seq<Page>, chain: seq<int>, k: nat, key: int)
    requires Linked(dt, chain) && k < |chain|
    ensures PagesOk(dt, chain) && LinkAt(dt, chain, k)
    ensures k + 1 < |chain| ==> LinkAt(dt, chain, k + 1)
    ensures Reached(dt, chain, k, key)
            == if PassedOver(dt[chain[k]], key) then Reached(dt, chain, k + 1, key) else k
  {
    forall i | 0 <= i < |chain| ensures 0 <= chain[i] < |dt| && PageOk(dt[chain[i]]) {
      assert LinkAt(dt, chain, i);
    }
    assert LinkAt(dt, chain, k);
    if k + 1 < |chain| {
      assert LinkAt(dt, chain, k + 1);
    }
  }

  lemma FirstRecs(dt: seq<Page>, chain: seq<int>, after: seq<Record>)
    requires PagesOk(dt, chain) && |chain| > 0
    ensures Recs(dt, chain[..1]) + [] + after == Live(dt[chain[0]]) + after
  {
    hide Recs, Live;
    assert chain[..1] == [chain[0]];
    RecsOne(dt, chain[0]);
    Sequences.Nothing(Live(dt[chain[0]]));
  }

  lemma NextRecs(dt: seq<Page>, chain: seq<int>, k: nat)
    requires PagesOk(dt, chain) && k < |chain|
    ensures Recs(dt, chain[k..]) == Live(dt[chain[k]]) + Recs(dt, chain[k + 1..])
  {
    hide Recs, Live;
    var rest := chain[k..];
    RecsAt(dt, rest, 0);
    assert rest[..0] == [] && rest[0 + 1..] == chain[k + 1..];
    RecsNone(dt);
    Sequences.Nothing(Live(dt[chain[k]]));
  }

  /** What is left, seen from the page where the walk stops. */
  lemma {:induction false} LeftAt(dt: seq<Page>, chain: seq<int>, k: nat, key: int)
    requires PagesOk(dt, chain) && k < |chain| && Reached(dt, chain, 0, key) == k
    ensures var p, left := Purge(Live(dt[chain[k]]), 0, key), Left(dt, chain, key);
            if Deleted(Live(dt[chain[k]]), 0, key, NONE) == NONE then left == Recs(dt, chain)
            else if p == [] && k > 0 then left == Live(dt[chain[0]]) + Recs(dt, chain[k + 1..])
            else
              && left == Recs(dt, chain[..k]) + p + Recs(dt, chain[k + 1..])
              && (k + 1 < |chain| ==>
                    Recs(dt, chain[k + 1..]) == Live(dt[chain[k + 1]]) + Recs(dt, chain[k + 2..]))
  {
    hide Purge, Deleted, Reached, Recs, Live;
    if k == 1 {
      FirstRecs(dt, chain, Recs(dt, chain[k + 1..]));
    }
    if k + 1 < |chain| {
      NextRecs(dt, chain, k + 1);
    }
  }

  /** A removal stops at page `k` of chain `c` and takes records out of it. */
  ghost predicate Stops(dt: seq<Page>, chains: seq<seq<int>>, c: nat, k: nat, key: int) {
    && ChainsOk(dt, chains) && c < |chains| && k < |chains[c]|
    && PagesOk(dt, chains[c])
    && Reached(dt, chains[c], 0, key) == k
    && Deleted(Live(dt[chains[c][k]]), 0, key, NONE) != NONE
  }

  /** The files hold what a removal on chain `c` leaves. */
  ghost predicate Leaves(dt: seq<Page>, chains: seq<seq<int>>, c: nat, key: int,
                         dt': seq<Page>, chains': seq<seq<int>>)
    requires c < |chains| && PagesOk(dt, chains[c])
  {
    && ChainsOk(dt', chains')
    && ContentsOf(dt', chains') == ContentsOf(dt, chains)[c := Left(dt, chains[c], key)]
    && EmptyHeads(dt') == EmptyHeads(dt) + if Empties(dt, chains[c], key) then {c} else {}
  }

  lemma {:induction false} NoHead(dt: seq<Page>, chains: seq<seq<int>>, c: nat, i: nat, p: nat)
    requires ChainsOk(dt, chains) && c < PRIMARY && 0 < i < |chains[c]| && p < PRIMARY
    ensures chains[c][i] != p
  {
    assert chains[p][0] == p;
  }

  lemma {:induction false} Stopping(dt: seq<Page>, chains: seq<seq<int>>, c: nat, k: nat, key: int)
    requires Stops(dt, chains, c, k, key)
    ensures c < PRIMARY <= |dt| && 0 < |chains[c]| && chains[c][0] == c && Linked(dt, chains[c])
    ensures forall i :: 0 <= i < |chains[c]| ==> 0 <= chains[c][i] < |dt| && PageOk(dt[chains[c][i]])
    ensures forall i :: 0 < i < |chains[c]| ==> dt[chains[c][i]].count > 0 && PRIMARY <= chains[c][i]
    ensures dt[chains[c][k]].count > 0 && (k > 0 ==> dt[c].count > 0)
    ensures Empties(dt, chains[c], key) <==> k == 0 && Purge(Live(dt[c]), 0, key) == []
  {
    hide Purge;
    Heads(dt, chains);
    ChainPages(dt, chains, c);
    EmptyPage(key);
    forall i | 0 < i < |chains[c]| ensures PRIMARY <= chains[c][i] {
      if 0 <= chains[c][i] < PRIMARY {
        NoHead(dt, chains, c, i, chains[c][i]);
      }
    }
  }

  lemma {:induction false} EmptyBehind(dt: seq<Page>, p: int, page: Page)
    requires PRIMARY <= p < |dt|
    ensures EmptyHeads(dt[p := page]) == EmptyHeads(dt)
  {
  }

  lemma {:induction false} EmptyHead(dt: seq<Page>, c: nat, page: Page)
    requires c < PRIMARY <= |dt| && dt[c].count > 0
    ensures EmptyHeads(dt[c := page]) == EmptyHeads(dt) + if page.count == 0 then {c} else {}
  {
  }

  lemma {:induction false} MoreStays(dt: seq<Page>, chain: seq<int>, c: nat, k: nat, page: Page)
    requires c < PRIMARY <= |dt| && k < |chain| && chain[0] == c && 0 <= chain[k] < |dt|
    requires k > 0 ==> PRIMARY <= chain[k]
    requires dt[chain[k]].count > 0 && page.count > 0
    ensures EmptyHeads(dt[chain[k] := page]) == EmptyHeads(dt)
  {
    if k == 0 {
      EmptyHead(dt, c, page);
    } else {
      EmptyBehind(dt, chain[k], page);
    }
  }

  lemma {:induction false} LeavesAll(dt: seq<Page>, chains: seq<seq<int>>, c: nat, key: int)
    requires ChainsOk(dt, chains) && c < |chains| && PagesOk(dt, chains[c])
    requires Left(dt, chains[c], key) == Recs(dt, chains[c])
    requires !Empties(dt, chains[c], key)
    ensures Leaves(dt, chains, c, key, dt, chains)
  {
  }

  lemma {:induction false} RemovedInPlace(dt: seq<Page>, chains: seq<seq<int>>, c: nat, k: nat, key: int, page: Page)
    requires Stops(dt, chains, c, k, key)
    requires PageOk(page) && (k > 0 ==> page.count > 0) && page.next == dt[chains[c][k]].next
    requires Live(page) == Purge(Live(dt[chains[c][k]]), 0, key)
    ensures Leaves(dt, chains, c, key, dt[chains[c][k] := page], chains)
  {
    hide Recs, Purge, ContentsOf, Left, Linked, Distinct, Reached, Deleted, EmptyHeads, Empties, ChainsOk;
    Stopping(dt, chains, c, k, key);
    if k == 0 {
      EmptyHead(dt, c, page);
    } else {
      EmptyBehind(dt, chains[c][k], page);
    }
    OneChain(dt, chains, c);
    assert LinkAt(dt, chains[c], k);
    LeftAt(dt, chains[c], k, key);
    PageReplaced(dt, chains, c, k, page);
  }

  lemma {:induction false} RemovedPage(dt: seq<Page>, chains: seq<seq<int>>, c: nat, k: nat, key: int, head: Page)
    requires Stops(dt, chains, c, k, key) && k > 0
    requires Purge(Live(dt[chains[c][k]]), 0, key) == []
    requires head == dt[chains[c][0]].(next := dt[chains[c][k]].next)
    ensures Leaves(dt, chains, c, key, dt[chains[c][0] := head],
                   chains[c := chains[c][..1] + chains[c][k + 1..]])
  {
    hide Recs, Purge, ChainsOk, ContentsOf, Left, Linked, Distinct, Reached, Deleted, EmptyHeads, Empties;
    var chain := chains[c];
    Stopping(dt, chains, c, k, key);
    EmptyHead(dt, c, head);
    OneChain(dt, chains, c);
    Walks(dt, chain, k, key);
    Walks(dt, chain, 0, key);
    LeftAt(dt, chain, k, key);
    PagesDropped(dt, chains, c, 1, k + 1, head);
    RecsNone(dt);
    assert chain[..0] == [];
    assert Live(head) == Live(dt[chain[0]]);
    assert [] + Live(head) + Recs(dt, chain[k + 1..]) == Left(dt, chain, key);
  }

  lemma {:induction false} RemovedAbsorbing(dt: seq<Page>, chains: seq<seq<int>>, c: nat, k: nat, key: int, page: Page)
    requires Stops(dt, chains, c, k, key) && k + 1 < |chains[c]|
    requires Filled(page) && page.next == dt[chains[c][k + 1]].next
    requires Purge(Live(dt[chains[c][k]]), 0, key) != []
    requires Live(page) == Purge(Live(dt[chains[c][k]]), 0, key) + Live(dt[chains[c][k + 1]])
    ensures Leaves(dt, chains, c, key, dt[chains[c][k] := page],
                   chains[c := chains[c][..k + 1] + chains[c][k + 2..]])
  {
    hide Recs, Purge, ChainsOk, ContentsOf, Left, Linked, Distinct, Reached, PagesOk, Deleted, EmptyHeads, Empties;
    var chain := chains[c];
    Stopping(dt, chains, c, k, key);
    MoreStays(dt, chain, c, k, page);
    OneChain(dt, chains, c);
    Walks(dt, chain, k, key);
    LeftAt(dt, chain, k, key);
    PagesDropped(dt, chains, c, k + 1, k + 2, page);
    var p, q, z := Recs(dt, chain[..k]), Live(dt[chain[k + 1]]), Recs(dt, chain[k + 2..]);
    var l := Purge(Live(dt[chain[k]]), 0, key);
    assert p + (l + q) + z == p + l + (q + z);
  }

  lemma {:induction false} RemovedBorrowing(dt: seq<Page>, chains: seq<seq<int>>, c: nat, k: nat, key: int,
                                            page: Page, next: Page)
    requires Stops(dt, chains, c, k, key) && k + 1 < |chains[c]|
    requires Filled(page) && page.next == dt[chains[c][k]].next
    requires Filled(next) && next.next == dt[chains[c][k + 1]].next
    requires Purge(Live(dt[chains[c][k]]), 0, key) != []
    requires Live(page) + Live(next) == Purge(Live(dt[chains[c][k]]), 0, key) + Live(dt[chains[c][k + 1]])
    ensures Leaves(dt, chains, c, key, dt[chains[c][k + 1] := next][chains[c][k] := page], chains)
  {
    hide Recs, Purge, ChainsOk, ContentsOf, Left, Linked, Distinct, Reached, PagesOk, Deleted, EmptyHeads, Empties;
    var chain := chains[c];
    Stopping(dt, chains, c, k, key);
    EmptyBehind(dt, chain[k + 1], next);
    MoreStays(dt[chain[k + 1] := next], chain, c, k, page);
    OneChain(dt, chains, c);
    Walks(dt, chain, k, key);
    LeftAt(dt, chain, k, key);
    PageBorrows(dt, chains, c, k, page, next);
    var p, q, z := Recs(dt, chain[..k]), Live(dt[chain[k + 1]]), Recs(dt, chain[k + 2..]);
    var l := Purge(Live(dt[chain[k]]), 0, key);
    assert p + (l + q) + z == p + l + (q + z);
  }

  lemma {:induction false} EmptyPage(key: int)
    ensures Purge([], 0, key) == [] && Deleted([], 0, key, NONE) == NONE
  {
  }

  // What a removal leaves stored.

  lemma {:induction false} PurgePairs(dup: seq<Record>, rs: seq<Record>, i: nat, key: int)
    ensures multiset(Pairs(dup, Purge(rs, i, key))) <= multiset(Pairs(dup, rs))
    decreases |rs| - i
  {
    hide Pairs;
    if i < |rs| {
      if rs[i].key == key {
        PurgePairs(dup, rs[..i] + rs[i + 1..], i + 1, key);
        Sequences.At(rs, i);
        PairsConcat(dup, rs[..i], rs[i + 1..]);
        Pairs3(dup, rs[..i], [rs[i]], rs[i + 1..]);
      } else {
        PurgePairs(dup, rs, i + 1, key);
      }
    }
  }

  lemma {:induction false} LeftPairs(dup: seq<Record>, dt: seq<Page>, chain: seq<int>, key: int)
    requires |chain| > 0 && PagesOk(dt, chain)
    ensures multiset(Pairs(dup, Left(dt, chain, key))) <= multiset(Pairs(dup, Recs(dt, chain)))
  {
    hide Pairs, Recs, Purge, Deleted, Reached;
    var k := Reached(dt, chain, 0, key);
    if k < |chain| {
      var l, before, after := Live(dt[chain[k]]), Recs(dt, chain[..k]), Recs(dt, chain[k + 1..]);
      RecsAt(dt, chain, k);
      if Loses(dt, chain, key) {
        HeadPairs(dup, dt, chain[..k]);
        assert chain[..k][0] == chain[0];
        LessPairs(dup, [], Live(dt[chain[0]]), before, after);
        LessPairs(dup, before, [], l, after);
        assert [] + Live(dt[chain[0]]) + after == Live(dt[chain[0]]) + after;
        assert [] + before + after == before + [] + after;
      } else {
        PurgePairs(dup, l, 0, key);
        LessPairs(dup, before, Purge(l, 0, key), l, after);
      }
    }
  }

  lemma {:induction false} LessPairs(dup: seq<Record>, a: seq<Record>, less: seq<Record>, more: seq<Record>,
                                     b: seq<Record>)
    requires multiset(Pairs(dup, less)) <= multiset(Pairs(dup, more)) || less == []
    ensures multiset(Pairs(dup, a + less + b)) <= multiset(Pairs(dup, a + more + b))
  {
    hide Pairs;
    NoPairs(dup);
    Pairs3(dup, a, less, b);
    Pairs3(dup, a, more, b);
  }

  lemma {:induction false} HeadPairs(dup: seq<Record>, dt: seq<Page>, chain: seq<int>)
    requires |chain| > 0 && PagesOk(dt, chain)
    ensures multiset(Pairs(dup, Live(dt[chain[0]]))) <= multiset(Pairs(dup, Recs(dt, chain)))
  {
    hide Pairs, Recs;
    RecsAt(dt, chain, 0);
    assert chain[..0] == [];
    RecsNone(dt);
    NoPairs(dup);
    Pairs3(dup, [], Live(dt[chain[0]]), Recs(dt, chain[1..]));
  }

  lemma {:induction false} NoPairs(dup: seq<Record>)
    ensures Pairs(dup, []) == []
  {
  }

  /** A removal keeps all that every operation keeps, and stores nothing new. */
  lemma {:induction false} LeavesOk(dt: seq<Page>, dup: seq<Record>, chains: seq<seq<int>>, seps: seq<int>, c: nat,
                                    key: int, dt': seq<Page>, chains': seq<seq<int>>)
    requires StoreOk(dt, dup, chains, seps) && c < |chains| && PagesOk(dt, chains[c])
    requires Leaves(dt, chains, c, key, dt', chains')
    ensures StoreOk(dt', dup, chains', seps)
    ensures StoredIn(dt', dup, chains') <= StoredIn(dt, dup, chains)
  {
    hide Left, Recs, Pairs, Concat, ChainsOk, EmptyHeads, Empties, DupsOk, SepsOk, RecordOk;
    var contents, left := ContentsOf(dt, chains), Left(dt, chains[c], key);
    LeftOk(dt, dup, chains, seps, c, key);
    LeftPairs(dup, dt, chains[c], key);
    ConcatAt(contents, c);
    ConcatUpdated(contents, c, left);
    LessPairs(dup, Concat(contents[..c]), left, contents[c], Concat(contents[c + 1..]));
  }

  lemma {:induction false} LeftOk(dt: seq<Page>, dup: seq<Record>, chains: seq<seq<int>>, seps: seq<int>, c: nat,
                                  key: int)
    requires StoreOk(dt, dup, chains, seps) && c < |chains| && PagesOk(dt, chains[c])
    ensures |chains[c]| > 0 && ContentsOf(dt, chains)[c] == Recs(dt, chains[c])
    ensures ChainOk(dup, Left(dt, chains[c], key), seps, c)
  {
    hide Left, Recs, RecordOk;
    OneChain(dt, chains, c);
    var rs, left := ContentsOf(dt, chains)[c], Left(dt, chains[c], key);
    assert ChainOk(dup, rs, seps, c);
    forall k | 0 <= k < |left| ensures left[k] in rs {
      LeftTakesFrom(dt, chains[c], key, left[k]);
    }
    AllFrom(dup, rs, left, seps, c);
  }

  lemma {:induction false} AllFrom(dup: seq<Record>, rs: seq<Record>, left: seq<Record>, seps: seq<int>, c: nat)
    requires ChainOk(dup, rs, seps, c)
    requires forall k :: 0 <= k < |left| ==> left[k] in rs
    ensures ChainOk(dup, left, seps, c)
  {
  }

  /** A removal leaves alone what is found under all other keys, unless it loses
      pages. */
  lemma {:induction false} RemovalKeeps(dt: seq<Page>, dup: seq<Record>, chains: seq<seq<int>>, c: nat, key: int)
    requires ChainsOk(dt, chains) && c < |chains|
    ensures PagesOk(dt, chains[c])
    ensures var before, left := ContentsOf(dt, chains)[c], Left(dt, chains[c], key);
            && (Others(left, key) == Others(before, key) <==> !Loses(dt, chains[c], key))
            && (!Loses(dt, chains[c], key) ==>
                  forall other :: other != key ==> Matching(dup, left, other) == Matching(dup, before, other))
  {
    OneChain(dt, chains, c);
    Walks(dt, chains[c], 0, key);
    hide Others, Matching, Recs;
    var before, left := Recs(dt, chains[c]), Left(dt, chains[c], key);
    OthersSurviveIff(dt, chains[c], key);
    if !Loses(dt, chains[c], key) {
      forall other | other != key ensures Matching(dup, left, other) == Matching(dup, before, other) {
        MatchingOthers(dup, before, key, other);
        MatchingOthers(dup, left, key, other);
      }
    }
  }
}
