/** The files right after a build: full primary pages, and the index above them. */
module IsamBuild {
  import opened IsamModel
  import opened IsamContents
  import opened IsamChains

  ghost predicate Ascending(rs: seq<Record>) {
    forall i, j :: 0 <= i <= j < |rs| ==> rs[i].key <= rs[j].key
  }

  ghost predicate Increasing(rs: seq<Record>) {
    forall i, j :: 0 <= i < j < |rs| ==> rs[i].key < rs[j].key
  }

  predicate Plain(rs: seq<Record>) {
    forall k :: 0 <= k < |rs| ==> rs[k].dup == NONE
  }

  function AsRecords(ps: seq<Pair>): seq<Record> {
    seq(|ps|, i requires 0 <= i < |ps| => Record(ps[i].0, ps[i].1, NONE))
  }

  function AsPairs(rs: seq<Record>): seq<Pair> {
    seq(|rs|, i requires 0 <= i < |rs| => (rs[i].key, rs[i].pos))
  }

  /** The separators: the first key of every primary page but the first. */
  ghost function SepsOf(data: seq<Record>): (seps: seq<int>)
    requires |data| >= MAX_RECORDS
    ensures |seps| == PRIMARY - 1
  {
    seq(PRIMARY - 1, i requires 0 <= i < PRIMARY - 1 => data[N * (i + 1)].key)
  }

  ghost predicate PagesTo(dt: seq<Page>, data: seq<Record>, n: nat)
    requires |data| >= MAX_RECORDS && n <= PRIMARY
  {
    |dt| == n && forall p :: 0 <= p < n ==> dt[p] == Page(N, NONE, data[N * p..N * p + N])
  }

  ghost predicate NodesTo(idx: seq<IndexPage>, seps: seq<int>, n: nat)
    requires |seps| == PRIMARY - 1 && n <= 13
  {
    |idx| == n && forall pos :: 0 <= pos < n ==> idx[pos] == Node(seps, pos)
  }

  ghost function Singles(): seq<seq<int>> {
    seq(PRIMARY, i => [i])
  }

  lemma {:induction false} PlainPairs(dup: seq<Record>, rs: seq<Record>)
    requires Plain(rs)
    ensures Pairs(dup, rs) == AsPairs(rs)
  {
    if rs != [] {
      var init, last := rs[..|rs| - 1], rs[|rs| - 1];
      PlainPairs(dup, init);
      PairsOne(dup, last);
      NewPair(dup, last);
      PairsConcat(dup, init, [last]);
      assert rs == init + [last];
    }
  }

  lemma {:induction false} PairsWithout(a: seq<Record>, k: nat)
    requires k < |a|
    ensures multiset(a) == multiset(a[..k] + a[k + 1..]) + multiset{a[k]}
    ensures multiset(AsPairs(a)) == multiset(AsPairs(a[..k] + a[k + 1..])) + multiset{(a[k].key, a[k].pos)}
  {
    assert a == a[..k] + [a[k]] + a[k + 1..];
    assert AsPairs(a) == AsPairs(a[..k]) + [(a[k].key, a[k].pos)] + AsPairs(a[k + 1..]);
    assert AsPairs(a[..k] + a[k + 1..]) == AsPairs(a[..k]) + AsPairs(a[k + 1..]);
  }

  lemma {:induction false} PairsTo(a: seq<Record>, k: nat)
    requires k < |a|
    ensures AsPairs(a[..k + 1]) == AsPairs(a[..k]) + [(a[k].key, a[k].pos)]
    ensures Plain(a) ==> a[k].dup == NONE
  {
  }

  lemma {:induction false} PermutedPairs(a: seq<Record>, b: seq<Record>)
    requires multiset(a) == multiset(b)
    ensures multiset(AsPairs(a)) == multiset(AsPairs(b))
    decreases |a|
  {
    hide AsPairs;
    if a == [] {
      assert |multiset(b)| == 0;
      assert b == [];
    } else {
      assert a[0] in multiset(b);
      var k :| 0 <= k < |b| && b[k] == a[0];
      PairsWithout(a, 0);
      PairsWithout(b, k);
      assert multiset(a[..0] + a[1..]) == multiset(a) - multiset{a[0]} == multiset(b) - multiset{b[k]};
      PermutedPairs(a[..0] + a[1..], b[..k] + b[k + 1..]);
    }
  }

  lemma {:induction false} PagesHold(contents: Contents, data: seq<Record>, n: nat)
    requires |data| >= MAX_RECORDS && n <= PRIMARY && |contents| == n
    requires forall c :: 0 <= c < n ==> contents[c] == data[N * c..N * c + N]
    ensures Concat(contents) == data[..N * n]
  {
    if n > 0 {
      PagesHold(contents[..n - 1], data, n - 1);
      assert data[..N * n] == data[..N * (n - 1)] + data[N * (n - 1)..N * n];
    }
  }

  lemma {:induction false} PageBuilt(data: seq<Record>, c: nat)
    requires |data| >= MAX_RECORDS && c < PRIMARY && Ascending(data) && Plain(data)
    ensures ChainOk([], data[N * c..N * c + N], SepsOf(data), c)
    ensures c > 0 ==> Has(data[N * c..N * c + N], SepsOf(data)[c - 1])
  {
    var rs, seps := data[N * c..N * c + N], SepsOf(data);
    assert forall k :: 0 <= k < N ==> rs[k] == data[N * c + k];
    if c > 0 {
      assert rs[0].key == seps[c - 1];
    }
    if c < |seps| {
      assert seps[c] == data[N * (c + 1)].key;
    }
  }

  lemma {:induction false} ChainBuilt(dt: seq<Page>, data: seq<Record>, c: nat)
    requires |data| >= MAX_RECORDS && PagesTo(dt, data, PRIMARY) && c < PRIMARY && Ascending(data) && Plain(data)
    ensures Linked(dt, [c]) && Recs(dt, [c]) == data[N * c..N * c + N]
    ensures ChainOk([], data[N * c..N * c + N], SepsOf(data), c)
    ensures c > 0 ==> Has(data[N * c..N * c + N], SepsOf(data)[c - 1])
  {
    assert LinkAt(dt, [c], 0);
    RecsOne(dt, c);
    assert Live(dt[c]) == data[N * c..N * c + N];
    PageBuilt(data, c);
  }

  lemma {:induction false} PlainTo(rs: seq<Record>, n: nat)
    requires Plain(rs) && n <= |rs|
    ensures Plain(rs[..n])
  {
  }

  /** Right after the primary pages are written, all is in order. */
  lemma {:induction false} BuiltIsOk(dt: seq<Page>, idx: seq<IndexPage>, data: seq<Record>)
    requires |data| >= MAX_RECORDS && PagesTo(dt, data, PRIMARY) && NodesTo(idx, SepsOf(data), 13)
    requires Ascending(data) && Plain(data)
    ensures IndexOk(idx, SepsOf(data)) && StoreOk(dt, [], Singles(), SepsOf(data))
    ensures Whole(dt, Singles(), SepsOf(data))
    ensures StoredIn(dt, [], Singles()) == multiset(AsPairs(data[..MAX_RECORDS]))
  {
    hide Linked, ChainOk, Has, Recs, AsPairs, Concat, Pairs, Plain;
    var chains, contents := Singles(), ContentsOf(dt, Singles());
    forall c | 0 <= c < PRIMARY
      ensures Linked(dt, chains[c]) && contents[c] == data[N * c..N * c + N]
      ensures ChainOk([], contents[c], SepsOf(data), c)
      ensures c > 0 ==> Has(contents[c], SepsOf(data)[c - 1])
    {
      ChainBuilt(dt, data, c);
    }
    PlainTo(data, MAX_RECORDS);
    PagesHold(contents, data, PRIMARY);
    PlainPairs([], data[..MAX_RECORDS]);
  }

  lemma {:induction false} PageAppended(dt: seq<Page>, data: seq<Record>, n: nat)
    requires |data| >= MAX_RECORDS && n < PRIMARY && PagesTo(dt, data, n)
    ensures PagesTo(dt + [Page(N, NONE, data[N * n..N * n + N])], data, n + 1) && |dt| == n
  {
  }

  lemma {:induction false} NodeAppended(idx: seq<IndexPage>, seps: seq<int>, n: nat)
    requires |seps| == PRIMARY - 1 && n < 13 && NodesTo(idx, seps, n)
    ensures NodesTo(idx + [Node(seps, n)], seps, n + 1) && |idx| == n
  {
  }

  lemma {:induction false} Levels(j: nat, k: nat)
    requires j <= M && k <= M
    ensures Low(4 * j + k) == 9 * j + 3 * k && Width(4 * j + k) == 1
    ensures Low(4 * j + 3) == 9 * j && Width(4 * j + 3) == 3
    ensures Low(12) == 0 && Width(12) == 9
  {
  }

  /** What a build writes into slot `i` of the index page at `pos`. */
  lemma {:induction false} NodeSlots(data: seq<Record>, pos: nat, i: nat)
    requires |data| >= MAX_RECORDS && pos <= 12 && i <= M
    ensures var node, l, w := Node(SepsOf(data), pos), Low(pos), Width(pos);
            && |node.keys| == M && |node.children| == M + 1 && (node.isLeaf <==> w == 1)
            && node.children[i] == (if w == 1 then l + i else if w == 3 then pos - 3 + i else 4 * i + 3)
            && (i < M ==> N * (l + (i + 1) * w) < |data| && node.keys[i] == data[N * (l + (i + 1) * w)].key)
  {
  }

  /** The key of a record that was put on a primary page leads to that page, if
      all keys are different. */
  lemma {:induction false} RouteOfKey(data: seq<Record>, i: nat)
    requires |data| >= MAX_RECORDS && Increasing(data) && i < MAX_RECORDS
    ensures IsRoute(SepsOf(data), data[i].key, i / N)
  {
    var c := i / N;
    assert c > 0 ==> data[N * c].key <= data[i].key;
    assert c < PRIMARY - 1 ==> data[i].key < data[N * (c + 1)].key;
  }

  /** Where a descent gets for such a key: to the record's page, and with `<` for
      the first key of a page to the page before. */
  lemma {:induction false} DescentOfKey(data: seq<Record>, i: nat, orEqual: bool, c: nat)
    requires |data| >= MAX_RECORDS && Increasing(data) && i < MAX_RECORDS
    requires Between(SepsOf(data), data[i].key, orEqual, c, c + 1)
    ensures c == if !orEqual && i % N == 0 && i > 0 then i / N - 1 else i / N
  {
    var seps, k := SepsOf(data), i / N;
    assert c > 0 ==> seps[c - 1] == data[N * c].key;
    assert c < PRIMARY - 1 ==> seps[c] == data[N * (c + 1)].key;
    if orEqual || i % N != 0 {
      assert c > 0 ==> N * c <= i;
      assert c < PRIMARY - 1 ==> i < N * (c + 1);
    } else {
      assert c > 0 ==> N * c < i;
      assert c < PRIMARY - 1 ==> i <= N * (c + 1);
    }
  }
}
