/** The data file and the index file: pages linked into chains, and the static
    tree of separators above them. */
module IsamChains {
  import Sequences
  import opened IsamModel
  import opened IsamContents

  // Chains of pages.

  predicate Filled(p: Page) { PageOk(p) && p.count > 0 }

  /** The records on a list of pages. */
  function Recs(dt: seq<Page>, chain: seq<int>): seq<Record> {
    if chain == [] then []
    else
      var p := chain[|chain| - 1];
      Recs(dt, chain[..|chain| - 1]) + if 0 <= p < |dt| && PageOk(dt[p]) then Live(dt[p]) else []
  }

  /** A page links to the next one; only the first page may be empty. */
  predicate LinkAt(dt: seq<Page>, chain: seq<int>, k: nat)
    requires k < |chain|
  {
    && 0 <= chain[k] < |dt|
    && PageOk(dt[chain[k]])
    && (k > 0 ==> dt[chain[k]].count > 0)
    && dt[chain[k]].next == if k + 1 < |chain| then chain[k + 1] else NONE
  }

  ghost predicate Linked(dt: seq<Page>, chain: seq<int>) {
    |chain| > 0 && forall k :: 0 <= k < |chain| ==> LinkAt(dt, chain, k)
  }

  ghost predicate Distinct(chain: seq<int>) {
    forall i, j :: 0 <= i < j < |chain| ==> chain[i] != chain[j]
  }

  /** No page is on two chains, or twice on one. */
  ghost predicate Apart(chains: seq<seq<int>>) {
    forall c, k, c', k' ::
      0 <= c < |chains| && 0 <= k < |chains[c]| && 0 <= c' < |chains| && 0 <= k' < |chains[c']|
      && chains[c][k] == chains[c'][k']
      ==> c == c' && k == k'
  }

  ghost predicate ChainsOk(dt: seq<Page>, chains: seq<seq<int>>) {
    && |chains| == PRIMARY
    && (forall c :: 0 <= c < |chains| ==> Linked(dt, chains[c]) && chains[c][0] == c)
    && Apart(chains)
  }

  ghost predicate HeadsFilled(dt: seq<Page>) {
    PRIMARY <= |dt| && forall c :: 0 <= c < PRIMARY ==> Filled(dt[c])
  }

  ghost function ContentsOf(dt: seq<Page>, chains: seq<seq<int>>): Contents {
    seq(|chains|, c requires 0 <= c < |chains| => Recs(dt, chains[c]))
  }

  lemma {:induction false} RecsConcat(dt: seq<Page>, a: seq<int>, b: seq<int>)
    ensures Recs(dt, a + b) == Recs(dt, a) + Recs(dt, b)
  {
    Sequences.Snoc(a, b);
    if b != [] {
      RecsConcat(dt, a, b[..|b| - 1]);
    }
  }

  lemma {:induction false} RecsOne(dt: seq<Page>, p: int)
    requires 0 <= p < |dt| && PageOk(dt[p])
    ensures Recs(dt, [p]) == Live(dt[p])
  {
    assert [p][..0] == [];
  }

  lemma {:induction false} RecsAt(dt: seq<Page>, chain: seq<int>, k: nat)
    requires k < |chain| && 0 <= chain[k] < |dt| && PageOk(dt[chain[k]])
    ensures Recs(dt, chain) == Recs(dt, chain[..k]) + Live(dt[chain[k]]) + Recs(dt, chain[k + 1..])
  {
    hide Recs;
    assert chain == chain[..k] + [chain[k]] + chain[k + 1..];
    RecsConcat(dt, chain[..k], [chain[k]]);
    RecsConcat(dt, chain[..k] + [chain[k]], chain[k + 1..]);
    RecsOne(dt, chain[k]);
  }

  /** Pages that are not on a list do not matter to it. */
  lemma {:induction false} RecsStay(dt: seq<Page>, dt': seq<Page>, chain: seq<int>)
    requires |dt| <= |dt'|
    requires forall k :: 0 <= k < |chain| ==> 0 <= chain[k] < |dt| && dt'[chain[k]] == dt[chain[k]]
    ensures Recs(dt', chain) == Recs(dt, chain)
  {
    if chain != [] {
      RecsStay(dt, dt', chain[..|chain| - 1]);
    }
  }

  predicate PagesOk(dt: seq<Page>, chain: seq<int>) {
    forall i :: 0 <= i < |chain| ==> 0 <= chain[i] < |dt| && PageOk(dt[chain[i]])
  }

  /** A page whose records are passed over: it has some, the last below the key. */
  predicate PassedOver(p: Page, key: int)
    requires PageOk(p)
  {
    p.count > 0 && p.slots[p.count - 1].key < key
  }

  /** The page an insertion or a removal stops at: the first that is empty, or
      whose last record is not below the key. */
  function Reached(dt: seq<Page>, chain: seq<int>, k: nat, key: int): (r: nat)
    requires PagesOk(dt, chain)
    requires k <= |chain|
    ensures k <= r <= |chain|
    decreases |chain| - k
  {
    if k < |chain| && PassedOver(dt[chain[k]], key) then Reached(dt, chain, k + 1, key) else k
  }

  /** One chain changes, in pages of its own or new ones. */
  ghost predicate OnlyChanges(dt: seq<Page>, dt': seq<Page>, chain: seq<int>, chain': seq<int>) {
    && |dt| <= |dt'|
    && (forall p :: 0 <= p < |dt| && p !in chain ==> dt'[p] == dt[p])
    && (forall k :: 0 <= k < |chain'| ==> chain'[k] in chain || |dt| <= chain'[k])
    && Distinct(chain')
  }

  lemma {:induction false} OtherChain(dt: seq<Page>, dt': seq<Page>, chains: seq<seq<int>>, c: nat,
                                      chain': seq<int>, i: nat)
    requires ChainsOk(dt, chains) && c < |chains| && OnlyChanges(dt, dt', chains[c], chain')
    requires i < |chains| && i != c
    ensures Linked(dt', chains[i]) && Recs(dt', chains[i]) == Recs(dt, chains[i])
    ensures forall k, k' :: 0 <= k < |chains[i]| && 0 <= k' < |chain'| ==> chains[i][k] != chain'[k']
  {
    var chain := chains[i];
    Elsewhere(chains, c, i);
    hide Apart, Recs;
    assert Linked(dt, chain);
    forall k | 0 <= k < |chain|
      ensures LinkAt(dt', chain, k) && 0 <= chain[k] < |dt| && dt'[chain[k]] == dt[chain[k]]
    {
      assert LinkAt(dt, chain, k);
    }
    RecsStay(dt, dt', chain);
  }

  lemma {:induction false} Elsewhere(chains: seq<seq<int>>, c: nat, i: nat)
    requires Apart(chains) && c < |chains| && i < |chains| && i != c
    ensures forall k :: 0 <= k < |chains[i]| ==> chains[i][k] !in chains[c]
  {
  }

  lemma {:induction false} ChainReplaced(dt: seq<Page>, dt': seq<Page>, chains: seq<seq<int>>, c: nat,
                                         chain': seq<int>)
    requires ChainsOk(dt, chains) && c < |chains| && OnlyChanges(dt, dt', chains[c], chain')
    requires Linked(dt', chain') && chain'[0] == c
    ensures ChainsOk(dt', chains[c := chain'])
    ensures ContentsOf(dt', chains[c := chain']) == ContentsOf(dt, chains)[c := Recs(dt', chain')]
  {
    hide Linked, Recs;
    var after := chains[c := chain'];
    forall i | 0 <= i < |chains| && i != c
      ensures Linked(dt', chains[i]) && Recs(dt', chains[i]) == Recs(dt, chains[i])
      ensures forall k, k' :: 0 <= k < |chains[i]| && 0 <= k' < |chain'| ==> chains[i][k] != chain'[k']
    {
      OtherChain(dt, dt', chains, c, chain', i);
    }
    assert Apart(after);
  }

  lemma {:induction false} OneChain(dt: seq<Page>, chains: seq<seq<int>>, c: nat)
    requires ChainsOk(dt, chains) && c < |chains|
    ensures Linked(dt, chains[c]) && Distinct(chains[c]) && chains[c][0] == c
  {
  }

  lemma {:induction false} Walking(dt: seq<Page>, chain: seq<int>, key: int)
    requires Linked(dt, chain)
    ensures |chain| > 0 && chain[0] != NONE && Recs(dt, chain[..0]) == [] && !Has(Recs(dt, chain[..0]), key)
  {
    assert LinkAt(dt, chain, 0);
  }

  /** A walk along a chain, from one page to the next. */
  lemma {:induction false} Walked(dt: seq<Page>, chain: seq<int>, k: nat)
    requires k < |chain| && Linked(dt, chain)
    ensures LinkAt(dt, chain, k)
    ensures Recs(dt, chain[..k + 1]) == Recs(dt, chain[..k]) + Live(dt[chain[k]])
    ensures k + 1 < |chain| ==> chain[k + 1] != NONE
    ensures k + 1 == |chain| ==> chain[..k + 1] == chain
  {
    assert LinkAt(dt, chain, k);
    assert chain[..k + 1] == chain[..k] + [chain[k]];
    RecsConcat(dt, chain[..k], [chain[k]]);
    RecsOne(dt, chain[k]);
    if k + 1 < |chain| {
      assert LinkAt(dt, chain, k + 1);
    }
  }

  /** A page is rewritten, and linked past the next few pages of its chain. */
  lemma {:induction false} PagesDropped(dt: seq<Page>, chains: seq<seq<int>>, c: nat, i: nat, j: nat, page: Page)
    requires ChainsOk(dt, chains) && c < |chains| && 0 < i <= j <= |chains[c]|
    requires PageOk(page) && (i > 1 ==> page.count > 0)
    requires page.next == if j < |chains[c]| then chains[c][j] else NONE
    ensures var chain := chains[c];
            && 0 <= chain[i - 1] < |dt|
            && var dt', chain' := dt[chain[i - 1] := page], chain[..i] + chain[j..];
               && ChainsOk(dt', chains[c := chain'])
               && ContentsOf(dt', chains[c := chain'])
                  == ContentsOf(dt, chains)[c := Recs(dt, chain[..i - 1]) + Live(page) + Recs(dt, chain[j..])]
  {
    OneChain(dt, chains, c);
    hide ChainsOk, ContentsOf;
    var chain := chains[c];
    assert LinkAt(dt, chain, i - 1);
    var dt', chain' := dt[chain[i - 1] := page], chain[..i] + chain[j..];
    LinkedDropped(dt, chain, i, j, page);
    ChainReplaced(dt, dt', chains, c, chain');
  }

  lemma {:induction false} LinkedDropped(dt: seq<Page>, chain: seq<int>, i: nat, j: nat, page: Page)
    requires Linked(dt, chain) && Distinct(chain) && 0 < i <= j <= |chain| && LinkAt(dt, chain, i - 1)
    requires PageOk(page) && (i > 1 ==> page.count > 0)
    requires page.next == if j < |chain| then chain[j] else NONE
    ensures var dt', chain' := dt[chain[i - 1] := page], chain[..i] + chain[j..];
            && Linked(dt', chain') && OnlyChanges(dt, dt', chain, chain')
            && Recs(dt', chain') == Recs(dt, chain[..i - 1]) + Live(page) + Recs(dt, chain[j..])
  {
    hide Recs, Distinct, PageOk;
    var dt', chain' := dt[chain[i - 1] := page], chain[..i] + chain[j..];
    forall k | 0 <= k < |chain'| ensures LinkAt(dt', chain', k) {
      LinkDropped(dt, chain, i, j, page, k);
    }
    StillApart(chain, i, j);
    DroppedChanges(dt, chain, i, j, page);
    RecsDropped(dt, chain, i, j, page);
  }

  lemma StillApart(chain: seq<int>, i: nat, j: nat)
    requires Distinct(chain) && i <= j <= |chain|
    ensures Distinct(chain[..i] + chain[j..])
  {
    var chain' := chain[..i] + chain[j..];
    assert forall k :: 0 <= k < |chain'| ==> chain'[k] == chain[if k < i then k else k - i + j];
  }

  lemma DroppedChanges(dt: seq<Page>, chain: seq<int>, i: nat, j: nat, page: Page)
    requires 0 < i <= j <= |chain| && 0 <= chain[i - 1] < |dt| && Distinct(chain[..i] + chain[j..])
    ensures OnlyChanges(dt, dt[chain[i - 1] := page], chain, chain[..i] + chain[j..])
  {
    hide Distinct;
    var chain' := chain[..i] + chain[j..];
    forall k | 0 <= k < |chain'| ensures chain'[k] in chain {
      assert chain'[k] == chain[if k < i then k else k - i + j];
    }
  }

  lemma {:induction false} RecsDropped(dt: seq<Page>, chain: seq<int>, i: nat, j: nat, page: Page)
    requires Linked(dt, chain) && Distinct(chain) && 0 < i <= j <= |chain| && LinkAt(dt, chain, i - 1) && PageOk(page)
    ensures Recs(dt[chain[i - 1] := page], chain[..i] + chain[j..])
            == Recs(dt, chain[..i - 1]) + Live(page) + Recs(dt, chain[j..])
  {
    hide Recs, PageOk;
    var dt', chain' := dt[chain[i - 1] := page], chain[..i] + chain[j..];
    RecsAt(dt', chain', i - 1);
    assert chain'[..i - 1] == chain[..i - 1] && chain'[i..] == chain[j..];
    forall k | 0 <= k < |chain| && k != i - 1
      ensures 0 <= chain[k] < |dt| && dt'[chain[k]] == dt[chain[k]]
    {
      assert LinkAt(dt, chain, k);
    }
    RecsStay(dt, dt', chain[..i - 1]);
    RecsStay(dt, dt', chain[j..]);
  }

  lemma {:induction false} LinkDropped(dt: seq<Page>, chain: seq<int>, i: nat, j: nat, page: Page, k: nat)
    requires Linked(dt, chain) && Distinct(chain) && 0 < i <= j <= |chain| && LinkAt(dt, chain, i - 1)
    requires PageOk(page) && (i > 1 ==> page.count > 0)
    requires page.next == if j < |chain| then chain[j] else NONE
    requires k < i + (|chain| - j)
    ensures LinkAt(dt[chain[i - 1] := page], chain[..i] + chain[j..], k)
  {
    var chain' := chain[..i] + chain[j..];
    assert chain'[k] == chain[if k < i then k else k - i + j];
    assert k + 1 < |chain'| ==> chain'[k + 1] == chain[if k + 1 < i then k + 1 else k + 1 - i + j];
    assert LinkAt(dt, chain, if k < i then k else k - i + j);
  }

  /** A page is rewritten in its place. */
  lemma {:induction false} PageReplaced(dt: seq<Page>, chains: seq<seq<int>>, c: nat, k: nat, page: Page)
    requires ChainsOk(dt, chains) && c < |chains| && k < |chains[c]| && LinkAt(dt, chains[c], k)
    requires page.next == dt[chains[c][k]].next && PageOk(page) && (k > 0 ==> page.count > 0)
    ensures var chain := chains[c];
            var dt' := dt[chain[k] := page];
            && ChainsOk(dt', chains)
            && ContentsOf(dt', chains)
               == ContentsOf(dt, chains)[c := Recs(dt, chain[..k]) + Live(page) + Recs(dt, chain[k + 1..])]
  {
    assert chains[c][..k + 1] + chains[c][k + 1..] == chains[c];
    assert chains[c := chains[c]] == chains;
    PagesDropped(dt, chains, c, k + 1, k + 1, page);
  }

  /** A page is rewritten, and a new page is linked in after it. */
  lemma {:induction false} PageSplit(dt: seq<Page>, chains: seq<seq<int>>, c: nat, k: nat,
                                     page: Page, new_page: Page)
    requires ChainsOk(dt, chains) && c < |chains| && k < |chains[c]| && LinkAt(dt, chains[c], k)
    requires Filled(page) && page.next == |dt|
    requires Filled(new_page) && new_page.next == dt[chains[c][k]].next
    ensures var chain := chains[c];
            var dt', chain' := dt[chain[k] := page] + [new_page], chain[..k + 1] + [|dt|] + chain[k + 1..];
            && ChainsOk(dt', chains[c := chain'])
            && ContentsOf(dt', chains[c := chain'])
               == ContentsOf(dt, chains)[c := Recs(dt, chain[..k]) + (Live(page) + Live(new_page))
                                              + Recs(dt, chain[k + 1..])]
  {
    OneChain(dt, chains, c);
    hide ChainsOk, ContentsOf, Recs;
    var chain := chains[c];
    var dt', chain' := dt[chain[k] := page] + [new_page], chain[..k + 1] + [|dt|] + chain[k + 1..];
    LinkedSplit(dt, chain, k, page, new_page);
    ChainReplaced(dt, dt', chains, c, chain');
    RecsSplit(dt, chain, k, page, new_page);
  }

  lemma {:induction false} LinkedSplit(dt: seq<Page>, chain: seq<int>, k: nat, page: Page, new_page: Page)
    requires Linked(dt, chain) && Distinct(chain) && k < |chain| && LinkAt(dt, chain, k)
    requires Filled(page) && page.next == |dt|
    requires Filled(new_page) && new_page.next == dt[chain[k]].next
    ensures var dt', chain' := dt[chain[k] := page] + [new_page], chain[..k + 1] + [|dt|] + chain[k + 1..];
            Linked(dt', chain') && OnlyChanges(dt, dt', chain, chain')
  {
    var dt', chain' := dt[chain[k] := page] + [new_page], chain[..k + 1] + [|dt|] + chain[k + 1..];
    forall i | 0 <= i < |chain| ensures 0 <= chain[i] < |dt| {
      assert LinkAt(dt, chain, i);
    }
    StillDistinct(chain, k + 1, |dt|);
    forall i | 0 <= i < |chain'| ensures LinkAt(dt', chain', i) {
      LinkSplit(dt, chain, k, page, new_page, i);
    }
  }

  lemma {:induction false} LinkSplit(dt: seq<Page>, chain: seq<int>, k: nat, page: Page, new_page: Page, i: nat)
    requires Linked(dt, chain) && Distinct(chain) && k < |chain| && LinkAt(dt, chain, k)
    requires Filled(page) && page.next == |dt|
    requires Filled(new_page) && new_page.next == dt[chain[k]].next
    requires i <= |chain|
    ensures LinkAt(dt[chain[k] := page] + [new_page], chain[..k + 1] + [|dt|] + chain[k + 1..], i)
  {
    var chain' := chain[..k + 1] + [|dt|] + chain[k + 1..];
    assert chain'[i] == if i <= k then chain[i] else if i == k + 1 then |dt| else chain[i - 1];
    assert i < |chain| ==> chain'[i + 1] == if i < k then chain[i + 1] else if i == k then |dt| else chain[i];
    if i != k + 1 {
      assert LinkAt(dt, chain, if i <= k then i else i - 1);
    }
  }

  lemma {:induction false} StillDistinct(chain: seq<int>, k: nat, p: int)
    requires Distinct(chain) && k <= |chain| && p !in chain
    ensures Distinct(chain[..k] + [p] + chain[k..])
  {
    var chain' := chain[..k] + [p] + chain[k..];
    forall i, j | 0 <= i < j < |chain'| ensures chain'[i] != chain'[j] {
      assert chain'[i] == if i < k then chain[i] else if i == k then p else chain[i - 1];
      assert chain'[j] == if j < k then chain[j] else if j == k then p else chain[j - 1];
    }
  }

  lemma {:induction false} RecsSplit(dt: seq<Page>, chain: seq<int>, k: nat, page: Page, new_page: Page)
    requires Linked(dt, chain) && Distinct(chain) && k < |chain| && LinkAt(dt, chain, k)
    requires PageOk(page) && PageOk(new_page)
    ensures var dt', chain' := dt[chain[k] := page] + [new_page], chain[..k + 1] + [|dt|] + chain[k + 1..];
            Recs(dt', chain')
            == Recs(dt, chain[..k]) + (Live(page) + Live(new_page)) + Recs(dt, chain[k + 1..])
  {
    hide Recs;
    var dt', chain' := dt[chain[k] := page] + [new_page], chain[..k + 1] + [|dt|] + chain[k + 1..];
    RecsAt(dt', chain', k);
    RecsAt(dt', chain'[k + 1..], 0);
    assert chain'[..k] == chain[..k] && chain'[k + 1..][1..] == chain[k + 1..];
    forall i | 0 <= i < |chain| && i != k
      ensures 0 <= chain[i] < |dt| && dt'[chain[i]] == dt[chain[i]]
    {
      assert LinkAt(dt, chain, i);
    }
    RecsStay(dt, dt', chain[..k]);
    RecsStay(dt, dt', chain[k + 1..]);
    RecsNone(dt');
  }

  lemma {:induction false} RecsNone(dt: seq<Page>)
    ensures Recs(dt, []) == []
  {
  }

  // What an insertion does to the files.

  ghost predicate StoreOk(dt: seq<Page>, dup: seq<Record>, chains: seq<seq<int>>, seps: seq<int>) {
    ChainsOk(dt, chains) && ContentsOk(dup, ContentsOf(dt, chains), seps)
  }

  /** What a build leaves and no insertion undoes: no first page is empty, and
      each chain holds the separator before it. */
  ghost predicate Whole(dt: seq<Page>, chains: seq<seq<int>>, seps: seq<int>) {
    HeadsFilled(dt) && Anchored(ContentsOf(dt, chains), seps)
  }

  /** The chains whose first page is empty. */
  function EmptyHeads(dt: seq<Page>): set<nat> {
    set c: nat | c < PRIMARY && c < |dt| && dt[c].count == 0
  }

  ghost function StoredIn(dt: seq<Page>, dup: seq<Record>, chains: seq<seq<int>>): multiset<Pair> {
    Stored(dup, ContentsOf(dt, chains))
  }

  lemma {:induction false} PrimaryOk(dt: seq<Page>, dup: seq<Record>, chains: seq<seq<int>>, seps: seq<int>, c: nat)
    requires StoreOk(dt, dup, chains, seps) && c < PRIMARY
    ensures Linked(dt, chains[c]) && LinkAt(dt, chains[c], 0) && chains[c][0] == c
    ensures DupsOk(dup) && RecordsOk(dup, Recs(dt, chains[c]))
    ensures ContentsOf(dt, chains)[c] == Recs(dt, chains[c])
  {
    assert ChainOk(dup, ContentsOf(dt, chains)[c], seps, c);
  }

  lemma {:induction false} ContentsAt(dt: seq<Page>, chains: seq<seq<int>>, c: nat, k: nat)
    requires ChainsOk(dt, chains) && c < |chains| && k < |chains[c]|
    ensures LinkAt(dt, chains[c], k) && |ContentsOf(dt, chains)| == |chains|
    ensures ContentsOf(dt, chains)[c]
            == Recs(dt, chains[c][..k]) + Live(dt[chains[c][k]]) + Recs(dt, chains[c][k + 1..])
  {
    assert LinkAt(dt, chains[c], k);
    RecsAt(dt, chains[c], k);
  }

  lemma {:induction false} Heads(dt: seq<Page>, chains: seq<seq<int>>)
    requires ChainsOk(dt, chains)
    ensures PRIMARY <= |dt|
  {
    assert LinkAt(dt, chains[PRIMARY - 1], 0);
  }

  lemma {:induction false} ChainPages(dt: seq<Page>, chains: seq<seq<int>>, c: nat)
    requires ChainsOk(dt, chains) && c < |chains|
    ensures |chains[c]| > 0 && PagesOk(dt, chains[c]) && Distinct(chains[c]) && chains[c][0] == c < |dt|
    ensures forall k :: 0 < k < |chains[c]| ==> dt[chains[c][k]].count > 0
  {
    var chain := chains[c];
    assert Linked(dt, chain) && Distinct(chain);
    forall k | 0 <= k < |chain|
      ensures 0 <= chain[k] < |dt| && PageOk(dt[chain[k]]) && (k > 0 ==> dt[chain[k]].count > 0)
    {
      assert LinkAt(dt, chain, k);
    }
  }

  lemma {:induction false} EmptyStay(dt: seq<Page>, p: int, page: Page, more: seq<Page>)
    requires PRIMARY <= |dt| && 0 <= p < |dt|
    requires page.count == 0 <==> dt[p].count == 0
    ensures EmptyHeads(dt[p := page] + more) == EmptyHeads(dt)
  {
  }

  lemma {:induction false} HeadsStay(dt: seq<Page>, p: int, page: Page, more: seq<Page>)
    requires 0 <= p < |dt| && Filled(page)
    ensures HeadsFilled(dt) ==> HeadsFilled(dt[p := page] + more)
  {
  }

  lemma {:induction false} Regroup(a: seq<Record>, l: seq<Record>, j: nat, r: Record, b: seq<Record>)
    requires j <= |l|
    ensures a + l + b == (a + l[..j]) + (l[j..] + b)
    ensures a + (l[..j] + [r] + l[j..]) + b == (a + l[..j]) + [r] + (l[j..] + b)
  {
    assert l == l[..j] + l[j..];
  }

  lemma {:induction false} RegroupAt(a: seq<Record>, l: seq<Record>, i: nat, r: Record, b: seq<Record>)
    requires i < |l|
    ensures a + l + b == (a + l[..i]) + [l[i]] + (l[i + 1..] + b)
    ensures a + l[i := r] + b == (a + l[..i]) + [r] + (l[i + 1..] + b)
  {
  }

  /** A page takes the record in among its own. */
  lemma {:induction false} AddedInPlace(dt: seq<Page>, dup: seq<Record>, chains: seq<seq<int>>, seps: seq<int>,
                                        c: nat, k: nat, page: Page, r: Record, j: nat)
    requires StoreOk(dt, dup, chains, seps) && c < |chains| && k < |chains[c]| && LinkAt(dt, chains[c], k)
    requires IsRoute(seps, r.key, c) && r.dup == NONE
    requires var was := dt[chains[c][k]];
             && j <= was.count && Filled(page) && page.next == was.next
             && Live(page) == Live(was)[..j] + [r] + Live(was)[j..]
    ensures var dt' := dt[chains[c][k] := page];
            && StoreOk(dt', dup, chains, seps)
            && (Whole(dt, chains, seps) ==> Whole(dt', chains, seps))
            && StoredIn(dt', dup, chains) == StoredIn(dt, dup, chains) + multiset{(r.key, r.pos)}
  {
    ContentsAt(dt, chains, c, k);
    PageReplaced(dt, chains, c, k, page);
    HeadsStay(dt, chains[c][k], page, []);
    assert dt[chains[c][k] := page] + [] == dt[chains[c][k] := page];
    hide ContentsOk, ChainsOk, ContentsOf, Recs, Stored, HeadsFilled, Anchored;
    var before, after, l := Recs(dt, chains[c][..k]), Recs(dt, chains[c][k + 1..]), Live(dt[chains[c][k]]);
    Regroup(before, l, j, r, after);
    RecordAdded(dup, ContentsOf(dt, chains), seps, c, before + l[..j], l[j..] + after, r);
  }

  /** A page hands records on to a new page behind it, and one of the two
      takes the record in. */
  lemma {:induction false} AddedBySplit(dt: seq<Page>, dup: seq<Record>, chains: seq<seq<int>>, seps: seq<int>,
                                        c: nat, k: nat, page: Page, new_page: Page, r: Record, j: nat)
    requires StoreOk(dt, dup, chains, seps) && c < |chains| && k < |chains[c]| && LinkAt(dt, chains[c], k)
    requires IsRoute(seps, r.key, c) && r.dup == NONE
    requires var was := dt[chains[c][k]];
             && j <= was.count && Filled(page) && page.next == |dt|
             && Filled(new_page) && new_page.next == was.next
             && Live(page) + Live(new_page) == Live(was)[..j] + [r] + Live(was)[j..]
    ensures var dt' := dt[chains[c][k] := page] + [new_page];
            var chains' := chains[c := chains[c][..k + 1] + [|dt|] + chains[c][k + 1..]];
            && StoreOk(dt', dup, chains', seps)
            && (Whole(dt, chains, seps) ==> Whole(dt', chains', seps))
            && StoredIn(dt', dup, chains') == StoredIn(dt, dup, chains) + multiset{(r.key, r.pos)}
  {
    ContentsAt(dt, chains, c, k);
    PageSplit(dt, chains, c, k, page, new_page);
    HeadsStay(dt, chains[c][k], page, [new_page]);
    hide ContentsOk, ChainsOk, ContentsOf, Recs, Stored, HeadsFilled, Anchored;
    var before, after, l := Recs(dt, chains[c][..k]), Recs(dt, chains[c][k + 1..]), Live(dt[chains[c][k]]);
    Regroup(before, l, j, r, after);
    RecordAdded(dup, ContentsOf(dt, chains), seps, c, before + l[..j], l[j..] + after, r);
  }

  /** A record under the same key gets one more duplicate. */
  lemma {:induction false} AddedDuplicate(dt: seq<Page>, dup: seq<Record>, chains: seq<seq<int>>, seps: seq<int>,
                                          c: nat, k: nat, i: nat, pos: int)
    requires StoreOk(dt, dup, chains, seps) && c < |chains| && k < |chains[c]| && LinkAt(dt, chains[c], k)
    requires i < dt[chains[c][k]].count
    ensures var was := dt[chains[c][k]];
            var x := was.slots[i];
            var dt' := dt[chains[c][k] := was.(slots := was.slots[i := x.(dup := |dup|)])];
            var dup' := dup + [Record(x.key, pos, x.dup)];
            && StoreOk(dt', dup', chains, seps)
            && (Whole(dt, chains, seps) ==> Whole(dt', chains, seps))
            && StoredIn(dt', dup', chains) == StoredIn(dt, dup, chains) + multiset{(x.key, pos)}
  {
    var was := dt[chains[c][k]];
    var x := was.slots[i];
    var page := was.(slots := was.slots[i := x.(dup := |dup|)]);
    ContentsAt(dt, chains, c, k);
    PageReplaced(dt, chains, c, k, page);
    assert Filled(was) by { if k == 0 { OneChain(dt, chains, c); } }
    HeadsStay(dt, chains[c][k], page, []);
    assert dt[chains[c][k] := page] + [] == dt[chains[c][k] := page];
    hide ContentsOk, ChainsOk, ContentsOf, Recs, Stored, HeadsFilled, Anchored;
    var before, after, l := Recs(dt, chains[c][..k]), Recs(dt, chains[c][k + 1..]), Live(was);
    assert Live(page) == l[i := x.(dup := |dup|)];
    RegroupAt(before, l, i, x.(dup := |dup|), after);
    DuplicateAdded(dup, ContentsOf(dt, chains), seps, c, before + l[..i], x, l[i + 1..] + after, pos);
  }

  /** A record goes on a new page behind a first page that is empty, and the
      pages that were behind it are linked past. */
  lemma {:induction false} AddedPastEmpty(dt: seq<Page>, dup: seq<Record>, chains: seq<seq<int>>, seps: seq<int>,
                                          c: nat, new_page: Page, r: Record)
    requires StoreOk(dt, dup, chains, seps) && c < |chains| && LinkAt(dt, chains[c], 0)
    requires dt[chains[c][0]].count == 0
    requires IsRoute(seps, r.key, c) && r.dup == NONE
    requires Filled(new_page) && new_page.next == NONE && Live(new_page) == [r]
    ensures var dt', chains' := dt[c := dt[c].(next := |dt|)] + [new_page], chains[c := [c, |dt|]];
            && StoreOk(dt', dup, chains', seps)
            && ContentsOf(dt', chains') == ContentsOf(dt, chains)[c := [r]]
  {
    var dt', chain' := dt[c := dt[c].(next := |dt|)] + [new_page], [c, |dt|];
    OneChain(dt, chains, c);
    assert Linked(dt', chain') by {
      assert LinkAt(dt', chain', 0) && LinkAt(dt', chain', 1);
    }
    RecsConcat(dt', [c], [|dt|]);
    RecsOne(dt', c);
    RecsOne(dt', |dt|);
    assert [c] + [|dt|] == chain';
    ChainReplaced(dt, dt', chains, c, chain');
    assert ChainOk(dup, [r], seps, c);
    hide Recs, ChainsOk;
    assert ContentsOk(dup, ContentsOf(dt, chains)[c := [r]], seps);
  }

  // The tree of separators.

  /** The first chain below the index page at `pos`, and the chains below each
      of its three children. */
  function Low(pos: nat): nat {
    if pos == 12 then 0 else if pos % 4 == 3 then 9 * (pos / 4) else 9 * (pos / 4) + 3 * (pos % 4)
  }

  function Width(pos: nat): (w: nat)
    ensures w > 0
  {
    if pos == 12 then 9 else if pos % 4 == 3 then 3 else 1
  }

  function Node(seps: seq<int>, pos: nat): IndexPage
    requires |seps| == PRIMARY - 1 && pos <= 12
  {
    var l, w := Low(pos), Width(pos);
    IndexPage(w == 1,
              [seps[l + w - 1], seps[l + 2 * w - 1]],
              if w == 1 then [l, l + 1, l + 2]
              else if w == 3 then [pos - 3, pos - 2, pos - 1]
              else [3, 7, 11])
  }

  ghost predicate IndexOk(idx: seq<IndexPage>, seps: seq<int>) {
    && SepsOk(seps)
    && |idx| == 13
    && forall pos :: 0 <= pos < |idx| ==> idx[pos] == Node(seps, pos)
  }

  /** Whether a descent for `key` goes past a separator: with `<=` in a search
      for one key and in an insertion, with `<` in a search for a range. */
  predicate Passes(sep: int, key: int, orEqual: bool) {
    sep < key || (orEqual && sep == key)
  }

  /** The chains from `l` up to `h` include the one the descent must reach. */
  ghost predicate Between(seps: seq<int>, key: int, orEqual: bool, l: nat, h: nat) {
    && l < h <= |seps| + 1
    && (l > 0 ==> Passes(seps[l - 1], key, orEqual))
    && (h <= |seps| ==> !Passes(seps[h - 1], key, orEqual))
  }

  lemma {:induction false} Children(pos: nat, i: nat)
    requires pos <= 12 && i <= M
    ensures var w := Width(pos);
            Low(pos) + 3 * w <= PRIMARY
            && (w > 1 ==> var child := if w == 3 then pos - 3 + i else 4 * i + 3;
                          0 <= child < pos && Low(child) == Low(pos) + i * w && 3 * Width(child) == w)
  {
  }

  /** One step down the tree stays on the way to the right chain. */
  lemma {:induction false} Descended(seps: seq<int>, key: int, orEqual: bool, pos: nat, i: nat)
    requires |seps| == PRIMARY - 1 && pos <= 12 && i <= M
    requires Between(seps, key, orEqual, Low(pos), Low(pos) + 3 * Width(pos))
    requires i > 0 ==> Passes(Node(seps, pos).keys[i - 1], key, orEqual)
    requires i < M ==> !Passes(Node(seps, pos).keys[i], key, orEqual)
    ensures var child := Node(seps, pos).children[i];
            && 0 <= child
            && if Node(seps, pos).isLeaf then Between(seps, key, orEqual, child, child + 1)
               else child < pos && Between(seps, key, orEqual, Low(child), Low(child) + 3 * Width(child))
  {
    hide Passes, Low, Width, Node;
    Children(pos, i);
    NodeKeys(seps, pos);
    var l, w := Low(pos), Width(pos);
    if i == 0 {
      assert Between(seps, key, orEqual, l, l + w);
    } else if i == 1 {
      assert Between(seps, key, orEqual, l + w, l + 2 * w);
    } else {
      assert Between(seps, key, orEqual, l + 2 * w, l + 3 * w);
    }
    ChildAt(seps, pos, i);
  }

  lemma {:induction false} NodeKeys(seps: seq<int>, pos: nat)
    requires |seps| == PRIMARY - 1 && pos <= 12
    ensures var l, w := Low(pos), Width(pos);
            Node(seps, pos).keys == [seps[l + w - 1], seps[l + 2 * w - 1]]
  {
    Children(pos, 0);
  }

  lemma {:induction false} ChildAt(seps: seq<int>, pos: nat, i: nat)
    requires |seps| == PRIMARY - 1 && pos <= 12 && i <= M
    ensures var node, l, w := Node(seps, pos), Low(pos), Width(pos);
            && |node.children| == M + 1
            && if w == 1 then node.isLeaf && node.children[i] == l + i
               else
                 && !node.isLeaf && 0 <= node.children[i] < pos
                 && Low(node.children[i]) == l + i * w && 3 * Width(node.children[i]) == w
  {
    Children(pos, i);
  }

  /** The chain that holds `key` if any does. */
  ghost function Route(seps: seq<int>, key: int): nat {
    if seps == [] || key < seps[0] then 0 else 1 + Route(seps[1..], key)
  }

  lemma {:induction false} RouteIs(seps: seq<int>, key: int, c: nat)
    requires IsRoute(seps, key, c)
    requires forall i, j :: 0 <= i <= j < |seps| ==> seps[i] <= seps[j]
    ensures Route(seps, key) == c
  {
    if c > 0 {
      assert seps[0] <= seps[c - 1];
      RouteIs(seps[1..], key, c - 1);
    }
  }
}
