/** What an insertion makes of the pages of its chain. */
module IsamInsertion {
  import Sequences
  import opened IsamModel
  import opened IsamContents
  import opened IsamChains
  import opened IsamPages

  /** The records on each page of a chain. */
  function PagesOn(dt: seq<Page>, chain: seq<int>): seq<seq<Record>>
    requires PagesOk(dt, chain)
  {
    seq(|chain|, i requires 0 <= i < |chain| => Live(dt[chain[i]]))
  }

  /** The record has come in among the others. */
  ghost predicate Among(was: seq<Record>, r: Record, now: seq<Record>) {
    exists j :: 0 <= j <= |was| && now == was[..j] + [r] + was[j..]
  }

  /** A full page and a record make two pages: the first record stays, and the
      new one joins it if its key is below those of all the others. */
  ghost predicate SplitInto(was: seq<Record>, r: Record, lower: seq<Record>, upper: seq<Record>)
    requires |was| == N
  {
    if r.key < was[1].key && r.key < was[2].key then Among(was[..1], r, lower) && upper == was[1..]
    else lower == was[..1] && Among(was[1..], r, upper)
  }

  lemma {:induction false} LowerTakes(l: seq<Record>, r: Record, at: nat)
    requires |l| == N && at <= 1 && r.key < l[1].key && r.key < l[2].key
    ensures var lower := l[..1][..at] + [r] + l[..1][at..];
            lower + l[1..] == l[..at] + [r] + l[at..] && SplitInto(l, r, lower, l[1..])
  {
    var lower := l[..1][..at] + [r] + l[..1][at..];
    assert lower + l[1..] == l[..at] + [r] + l[at..];
  }

  lemma {:induction false} UpperTakes(l: seq<Record>, r: Record, at: nat)
    requires |l| == N && at <= 2 && (l[1].key <= r.key || l[2].key <= r.key)
    ensures var upper := l[1..][..at] + [r] + l[1..][at..];
            l[..1] + upper == l[..1 + at] + [r] + l[1 + at..] && SplitInto(l, r, l[..1], upper)
  {
    var upper := l[1..][..at] + [r] + l[1..][at..];
    assert l[..1] + upper == l[..1 + at] + [r] + l[1 + at..];
  }

  /** The pages of a chain after an insertion. `d` is the place of the next entry
      in the duplicates file. */
  ghost predicate Grown(dt: seq<Page>, chain: seq<int>, r: Record, d: nat, now: seq<seq<Record>>)
    requires |chain| > 0 && PagesOk(dt, chain)
  {
    var was, k := PagesOn(dt, chain), Reached(dt, chain, 0, r.key);
    if k == |chain| then
      if |was[k - 1]| == N then now == was + [[r]] else OnePage(was, k - 1, r, now)
    else if was[k] == [] then now == was[..k + 1] + [[r]]
    else if Has(was[k], r.key) then
      exists i: nat :: FirstAt(was[k], r.key, i) && i < |was[k]| && now == was[k := was[k][i := was[k][i].(dup := d)]]
    else if |was[k]| == N then
      && |now| == |was| + 1
      && SplitInto(was[k], r, now[k], now[k + 1])
      && now == was[..k] + [now[k], now[k + 1]] + was[k + 1..]
    else OnePage(was, k, r, now)
  }

  /** One page has taken the record in. */
  ghost predicate OnePage(was: seq<seq<Record>>, k: nat, r: Record, now: seq<seq<Record>>)
    requires k < |was|
  {
    |now| == |was| && Among(was[k], r, now[k]) && now == was[k := now[k]]
  }

  lemma {:induction false} PagesReplaced(dt: seq<Page>, chain: seq<int>, k: nat, page: Page)
    requires PagesOk(dt, chain) && Distinct(chain) && k < |chain| && PageOk(page)
    ensures PagesOk(dt[chain[k] := page], chain)
    ensures PagesOn(dt[chain[k] := page], chain) == PagesOn(dt, chain)[k := Live(page)]
  {
  }

  lemma {:induction false} PagesSplit(dt: seq<Page>, chain: seq<int>, k: nat, page: Page, new_page: Page)
    requires PagesOk(dt, chain) && Distinct(chain) && k < |chain| && PageOk(page) && PageOk(new_page)
    ensures var dt', chain' := dt[chain[k] := page] + [new_page], chain[..k + 1] + [|dt|] + chain[k + 1..];
            && PagesOk(dt', chain')
            && PagesOn(dt', chain')
               == PagesOn(dt, chain)[..k] + [Live(page), Live(new_page)] + PagesOn(dt, chain)[k + 1..]
  {
    var dt', chain' := dt[chain[k] := page] + [new_page], chain[..k + 1] + [|dt|] + chain[k + 1..];
    forall i | 0 <= i < |chain'|
      ensures 0 <= chain'[i] < |dt'|
      ensures dt'[chain'[i]] == if i < k then dt[chain[i]] else if i == k then page
                                else if i == k + 1 then new_page else dt[chain[i - 1]]
    {
      assert chain'[i] == if i <= k then chain[i] else if i == k + 1 then |dt| else chain[i - 1];
    }
  }

  lemma {:induction false} PagesAppended(dt: seq<Page>, chain: seq<int>, page: Page, new_page: Page)
    requires PagesOk(dt, chain) && Distinct(chain) && |chain| > 0 && PageOk(page) && PageOk(new_page)
    requires Live(page) == Live(dt[chain[|chain| - 1]])
    ensures var k := |chain| - 1;
            var dt', chain' := dt[chain[k] := page] + [new_page], chain[..k + 1] + [|dt|] + chain[k + 1..];
            PagesOk(dt', chain') && PagesOn(dt', chain') == PagesOn(dt, chain) + [Live(new_page)]
  {
    PagesSplit(dt, chain, |chain| - 1, page, new_page);
  }

  lemma {:induction false} PagesCut(dt: seq<Page>, c: nat, new_page: Page)
    requires c < |dt| && PageOk(dt[c]) && dt[c].count == 0 && PageOk(new_page)
    ensures var dt', chain' := dt[c := dt[c].(next := |dt|)] + [new_page], [c, |dt|];
            PagesOk(dt', chain') && PagesOn(dt', chain') == [[], Live(new_page)]
  {
  }

  /** What is found in the pages of a chain is what is found on the chain. */
  lemma {:induction false} PagesAre(dt: seq<Page>, chain: seq<int>)
    requires PagesOk(dt, chain)
    ensures Recs(dt, chain) == Concat(PagesOn(dt, chain))
  {
    if chain != [] {
      var init := chain[..|chain| - 1];
      PagesAre(dt, init);
      assert PagesOn(dt, chain)[..|chain| - 1] == PagesOn(dt, init);
    }
  }

  // What an insertion does to all files.

  /** The files after chain `c` took the record in. Behind an empty first page,
      the record is all that is left on the chain. */
  ghost predicate Takes(dt: seq<Page>, dup: seq<Record>, chains: seq<seq<int>>, seps: seq<int>, c: nat, r: Record,
                        dt': seq<Page>, dup': seq<Record>, chains': seq<seq<int>>)
    requires c < |chains| && |chains[c]| > 0 && c < |dt| && PagesOk(dt, chains[c])
  {
    && StoreOk(dt', dup', chains', seps)
    && (Whole(dt, chains, seps) ==> Whole(dt', chains', seps))
    && EmptyHeads(dt') == EmptyHeads(dt)
    && c < |chains'| && PagesOk(dt', chains'[c])
    && Grown(dt, chains[c], r, |dup|, PagesOn(dt', chains'[c]))
    && if dt[c].count == 0 then
         dup' == dup && ContentsOf(dt', chains') == ContentsOf(dt, chains)[c := [r]]
       else
         StoredIn(dt', dup', chains') == StoredIn(dt, dup, chains) + multiset{(r.key, r.pos)}
  }

  /** An insertion of `r` on chain `c` stops at page `k`, or behind the last. */
  ghost predicate StopsAt(dt: seq<Page>, dup: seq<Record>, chains: seq<seq<int>>, seps: seq<int>, c: nat, k: nat,
                          r: Record)
  {
    && StoreOk(dt, dup, chains, seps)
    && c < PRIMARY && c < |dt| && c < |chains|
    && IsRoute(seps, r.key, c) && r.dup == NONE
    && 0 < |chains[c]| && PagesOk(dt, chains[c])
    && k == Reached(dt, chains[c], 0, r.key)
  }

  lemma {:induction false} Stopped(dt: seq<Page>, dup: seq<Record>, chains: seq<seq<int>>, seps: seq<int>,
                                   c: nat, k: nat, r: Record, i: nat)
    requires StopsAt(dt, dup, chains, seps, c, k, r) && i < |chains[c]|
    ensures PRIMARY <= |dt| && c < |chains| && Distinct(chains[c]) && chains[c][0] == c
    ensures StoreOk(dt, dup, chains, seps) && IsRoute(seps, r.key, c) && PagesOk(dt, chains[c])
    ensures LinkAt(dt, chains[c], i) && 0 <= chains[c][i] < |dt| && PageOk(dt[chains[c][i]])
    ensures dt[chains[c][i]].next == if i + 1 < |chains[c]| then chains[c][i + 1] else NONE
    ensures k > 0 ==> dt[c].count > 0
    ensures dt[chains[c][i]].count == 0 ==> i == 0
  {
    Heads(dt, chains);
    ChainPages(dt, chains, c);
    ContentsAt(dt, chains, c, i);
  }

  lemma {:induction false} GrownInPlace(dt: seq<Page>, chain: seq<int>, k: nat, r: Record, d: nat, page: Page, j: nat)
    requires |chain| > 0 && PagesOk(dt, chain) && Distinct(chain) && k == Reached(dt, chain, 0, r.key)
    requires var i := if k == |chain| then k - 1 else k;
             var was := dt[chain[i]];
             && 0 < was.count < N && (k < |chain| ==> !Has(Live(was), r.key))
             && j <= was.count && PageOk(page)
             && Live(page) == Live(was)[..j] + [r] + Live(was)[j..]
    ensures var dt' := dt[chain[if k == |chain| then k - 1 else k] := page];
            PagesOk(dt', chain) && Grown(dt, chain, r, d, PagesOn(dt', chain))
  {
    hide Reached;
    var i := if k == |chain| then k - 1 else k;
    PagesReplaced(dt, chain, i, page);
    var was, now := PagesOn(dt, chain), PagesOn(dt[chain[i] := page], chain);
    assert Among(was[i], r, now[i]);
    assert OnePage(was, i, r, now);
  }

  lemma {:induction false} TakesInPlace(dt: seq<Page>, dup: seq<Record>, chains: seq<seq<int>>, seps: seq<int>,
                                        c: nat, k: nat, r: Record, page: Page, j: nat)
    requires StopsAt(dt, dup, chains, seps, c, k, r)
    requires var i := if k == |chains[c]| then k - 1 else k;
             var was := dt[chains[c][i]];
             && 0 < was.count < N && (k < |chains[c]| ==> !Has(Live(was), r.key))
             && j <= was.count && Filled(page) && page.next == was.next
             && Live(page) == Live(was)[..j] + [r] + Live(was)[j..]
    ensures var i := if k == |chains[c]| then k - 1 else k;
            Takes(dt, dup, chains, seps, c, r, dt[chains[c][i] := page], dup, chains)
  {
    hide StoreOk, Whole, StoredIn, IsRoute, LinkAt, EmptyHeads, Reached, Grown, Has, Distinct, PagesOn;
    var i := if k == |chains[c]| then k - 1 else k;
    Stopped(dt, dup, chains, seps, c, k, r, i);
    AddedInPlace(dt, dup, chains, seps, c, i, page, r, j);
    GrownInPlace(dt, chains[c], k, r, |dup|, page, j);
    EmptyStay(dt, chains[c][i], page, []);
    assert dt[chains[c][i] := page] + [] == dt[chains[c][i] := page];
  }

  lemma {:induction false} TakesBySplit(dt: seq<Page>, dup: seq<Record>, chains: seq<seq<int>>, seps: seq<int>,
                                        c: nat, k: nat, r: Record, page: Page, new_page: Page, j: nat)
    requires StopsAt(dt, dup, chains, seps, c, k, r) && k < |chains[c]|
    requires var was := dt[chains[c][k]];
             && was.count == N && !Has(Live(was), r.key)
             && j <= N && Filled(page) && page.next == |dt|
             && Filled(new_page) && new_page.next == was.next
             && Live(page) + Live(new_page) == Live(was)[..j] + [r] + Live(was)[j..]
             && SplitInto(Live(was), r, Live(page), Live(new_page))
    ensures Takes(dt, dup, chains, seps, c, r, dt[chains[c][k] := page] + [new_page], dup,
                  chains[c := chains[c][..k + 1] + [|dt|] + chains[c][k + 1..]])
  {
    hide StoreOk, Whole, StoredIn, IsRoute, LinkAt, EmptyHeads, Reached, SplitInto;
    Stopped(dt, dup, chains, seps, c, k, r, k);
    AddedBySplit(dt, dup, chains, seps, c, k, page, new_page, r, j);
    PagesSplit(dt, chains[c], k, page, new_page);
    EmptyStay(dt, chains[c][k], page, [new_page]);
    assert dt[c].count > 0;
  }

  lemma {:induction false} GrownAtEnd(dt: seq<Page>, chain: seq<int>, r: Record, d: nat)
    requires |chain| > 0 && PagesOk(dt, chain) && Reached(dt, chain, 0, r.key) == |chain|
    requires dt[chain[|chain| - 1]].count == N
    ensures Grown(dt, chain, r, d, PagesOn(dt, chain) + [[r]])
  {
  }

  /** The record goes on a new page behind the last, which is full. */
  lemma {:induction false} TakesAtEnd(dt: seq<Page>, dup: seq<Record>, chains: seq<seq<int>>, seps: seq<int>,
                                      c: nat, k: nat, r: Record, new_page: Page)
    requires StopsAt(dt, dup, chains, seps, c, k, r) && k == |chains[c]|
    requires dt[chains[c][k - 1]].count == N
    requires Filled(new_page) && new_page.next == NONE && Live(new_page) == [r]
    ensures var p := chains[c][k - 1];
            Takes(dt, dup, chains, seps, c, r, dt[p := dt[p].(next := |dt|)] + [new_page], dup,
                  chains[c := chains[c][..k] + [|dt|] + chains[c][k..]])
  {
    hide StoreOk, Whole, Grown, Reached, StoredIn, PagesOk, PagesOn, EmptyHeads;
    var chain' := chains[c][..k] + [|dt|] + chains[c][k..];
    PagesAtEnd(dt, dup, chains, seps, c, k, r, new_page);
    StoredAtEnd(dt, dup, chains, seps, c, k, r, new_page);
    assert chains[c := chain'][c] == chain';
  }

  lemma {:induction false} PagesAtEnd(dt: seq<Page>, dup: seq<Record>, chains: seq<seq<int>>, seps: seq<int>,
                                      c: nat, k: nat, r: Record, new_page: Page)
    requires StopsAt(dt, dup, chains, seps, c, k, r) && k == |chains[c]|
    requires dt[chains[c][k - 1]].count == N
    requires PageOk(new_page) && Live(new_page) == [r]
    ensures var p := chains[c][k - 1];
            var dt', chain' := dt[p := dt[p].(next := |dt|)] + [new_page], chains[c][..k] + [|dt|] + chains[c][k..];
            && c < |chains|
            && EmptyHeads(dt') == EmptyHeads(dt)
            && PagesOk(dt', chain') && Grown(dt, chains[c], r, |dup|, PagesOn(dt', chain'))
  {
    var p := chains[c][k - 1];
    Stopped(dt, dup, chains, seps, c, k, r, k - 1);
    hide StoreOk, Grown, Reached;
    PagesAppended(dt, chains[c], dt[p].(next := |dt|), new_page);
    EmptyStay(dt, p, dt[p].(next := |dt|), [new_page]);
    GrownAtEnd(dt, chains[c], r, |dup|);
  }

  lemma {:induction false} StoredAtEnd(dt: seq<Page>, dup: seq<Record>, chains: seq<seq<int>>, seps: seq<int>,
                                       c: nat, k: nat, r: Record, new_page: Page)
    requires StopsAt(dt, dup, chains, seps, c, k, r) && k == |chains[c]|
    requires dt[chains[c][k - 1]].count == N
    requires Filled(new_page) && new_page.next == NONE && Live(new_page) == [r]
    ensures var p := chains[c][k - 1];
            var dt' := dt[p := dt[p].(next := |dt|)] + [new_page];
            var chains' := chains[c := chains[c][..k] + [|dt|] + chains[c][k..]];
            && StoreOk(dt', dup, chains', seps)
            && (Whole(dt, chains, seps) ==> Whole(dt', chains', seps))
            && StoredIn(dt', dup, chains') == StoredIn(dt, dup, chains) + multiset{(r.key, r.pos)}
            && dt[c].count > 0
  {
    hide StoreOk, Whole, Reached, StoredIn, IsRoute, PagesOk, Distinct, LinkAt;
    Stopped(dt, dup, chains, seps, c, k, r, k - 1);
    var p := chains[c][k - 1];
    Sequences.Last(Live(dt[p]), r);
    AddedBySplit(dt, dup, chains, seps, c, k - 1, dt[p].(next := |dt|), new_page, r, N);
  }

  /** The first page is empty: the record goes on a new page behind it. */
  lemma {:induction false} TakesPastEmpty(dt: seq<Page>, dup: seq<Record>, chains: seq<seq<int>>, seps: seq<int>,
                                          c: nat, r: Record, new_page: Page)
    requires StopsAt(dt, dup, chains, seps, c, 0, r) && dt[c].count == 0
    requires Filled(new_page) && new_page.next == NONE && Live(new_page) == [r]
    ensures Takes(dt, dup, chains, seps, c, r, dt[c := dt[c].(next := |dt|)] + [new_page], dup,
                  chains[c := [c, |dt|]])
  {
    Stopped(dt, dup, chains, seps, c, 0, r, 0);
    AddedPastEmpty(dt, dup, chains, seps, c, new_page, r);
    PagesCut(dt, c, new_page);
    EmptyStay(dt, c, dt[c].(next := |dt|), [new_page]);
    hide ChainsOk, ContentsOf, ContentsOk, Anchored, StoredIn, IsRoute, EmptyHeads;
    var was := PagesOn(dt, chains[c]);
    assert was[0] == [] && was[..0 + 1] + [[r]] == [[], [r]];
    assert !HeadsFilled(dt);
  }

  /** A record under the same key gets one more duplicate. */
  lemma {:induction false} TakesDuplicate(dt: seq<Page>, dup: seq<Record>, chains: seq<seq<int>>, seps: seq<int>,
                                          c: nat, k: nat, r: Record, i: nat)
    requires StopsAt(dt, dup, chains, seps, c, k, r) && k < |chains[c]|
    requires i < dt[chains[c][k]].count && FirstAt(Live(dt[chains[c][k]]), r.key, i)
    ensures var was := dt[chains[c][k]];
            var x := was.slots[i];
            Takes(dt, dup, chains, seps, c, r,
                  dt[chains[c][k] := was.(slots := was.slots[i := x.(dup := |dup|)])],
                  dup + [Record(x.key, r.pos, x.dup)], chains)
  {
    hide StoreOk, Whole, StoredIn, IsRoute, LinkAt, EmptyHeads, Reached;
    var was := dt[chains[c][k]];
    var x := was.slots[i];
    var page := was.(slots := was.slots[i := x.(dup := |dup|)]);
    Stopped(dt, dup, chains, seps, c, k, r, k);
    AddedDuplicate(dt, dup, chains, seps, c, k, i, r.pos);
    PagesReplaced(dt, chains[c], k, page);
    EmptyStay(dt, chains[c][k], page, []);
    assert dt[chains[c][k] := page] + [] == dt[chains[c][k] := page];
    assert Has(Live(was), r.key) by { assert Live(was)[i].key == r.key; }
    assert dt[c].count > 0;
    assert Live(page) == Live(was)[i := x.(dup := |dup|)];
  }
}
