/** Path compression: a node without a rule whose only child stands for text, too,
    is merged with that child. */
module RouterOptimize {
  import opened RouterModel

  predicate IsSimpleNode(n: Node) {
    && n.rule == 0
    && |n.children| < 2
    && n.param == MAX
    && forall k :: 0 <= k < |n.children| ==> n.children[k].param == MAX
  }

  function Size(n: Node): (s: nat)
    ensures s > 0
    decreases n, |n.children| + 1
  {
    1 + SizeBelow(n, |n.children|)
  }

  function SizeBelow(n: Node, k: nat): (s: nat)
    requires k <= |n.children|
    ensures forall i :: 0 <= i < k ==> Size(n.children[i]) <= s
    decreases n, k
  {
    if k == 0 then 0 else SizeBelow(n, k - 1) + Size(n.children[k - 1])
  }

  function Merged(n: Node): Node
    requires |n.children| == 1
  {
    var c := n.children[0];
    Node(c.rule, n.key + c.key, n.param, c.children)
  }

  lemma {:induction false} SameSize(a: Node, b: Node, k: nat)
    requires a.children == b.children && k <= |a.children|
    ensures SizeBelow(a, k) == SizeBelow(b, k)
  {
    if k > 0 {
      SameSize(a, b, k - 1);
    }
  }

  lemma {:induction false} MergedIsSmaller(n: Node)
    requires |n.children| == 1
    ensures Size(Merged(n)) < Size(n)
  {
    var c := n.children[0];
    SameSize(Merged(n), c, |c.children|);
    assert SizeBelow(n, 1) == SizeBelow(n, 0) + Size(c);
  }

  /** The node that the in-place rewriting leaves. After a merge it goes on with
      the same node, which stands for a smaller tree then. */
  function OptimizeNode(n: Node): Node
    decreases Size(n), 1, 0
  {
    if n.children == [] then n
    else if IsSimpleNode(n) then
      MergedIsSmaller(n);
      OptimizeNode(Merged(n))
    else n.(children := OptimizeChildren(n, |n.children|))
  }

  function OptimizeChildren(n: Node, k: nat): (cs: seq<Node>)
    requires k <= |n.children|
    ensures |cs| == k && forall i :: 0 <= i < k ==> cs[i] == OptimizeNode(n.children[i])
    decreases Size(n), 0, k
  {
    if k == 0 then []
    else
      assert SizeBelow(n, |n.children|) >= Size(n.children[k - 1]);
      OptimizeChildren(n, k - 1) + [OptimizeNode(n.children[k - 1])]
  }

  /** The search looks at the rule and the children of a node only. */
  lemma {:induction false} BestSame(f: Strtod, a: Node, b: Node, k: nat, url: string, pos: nat)
    requires |a.children| == |b.children| && k <= |a.children| && pos < |url|
    requires forall i :: 0 <= i < k ==> Try(f, a.children[i], url, pos) == Try(f, b.children[i], url, pos)
    ensures Best(f, a, k, url, pos) == Best(f, b, k, url, pos)
  {
    if k > 0 {
      BestSame(f, a, b, k - 1, url, pos);
    }
  }

  lemma {:induction false} FindSame(f: Strtod, a: Node, b: Node, url: string, pos: nat)
    requires a.rule == b.rule && a.children == b.children && pos <= |url|
    ensures FindIn(f, a, url, pos) == FindIn(f, b, url, pos)
  {
    if pos < |url| {
      BestSame(f, a, b, |a.children|, url, pos);
    }
  }

  lemma {:induction false} StartsWithBoth(url: string, pos: nat, a: string, b: string)
    ensures StartsWith(url, pos, a + b) <==> StartsWith(url, pos, a) && StartsWith(url, pos + |a|, b)
  {
    if pos + |a| + |b| <= |url| {
      var s := url[pos..pos + |a| + |b|];
      assert s[..|a|] == url[pos..pos + |a|] && s[|a|..] == url[pos + |a|..pos + |a| + |b|];
      assert s == s[..|a|] + s[|a|..];
    }
  }

  lemma {:induction false} MergedFinds(f: Strtod, n: Node, url: string, pos: nat)
    requires pos < |url| && Labelled(n) && IsSimpleNode(n) && |n.children| == 1
    ensures Try(f, Merged(n), url, pos) == Try(f, n, url, pos)
  {
    var c := n.children[0];
    assert Label(c) != [];
    StartsWithBoth(url, pos, n.key, c.key);
    if StartsWith(url, pos, n.key) && pos + |n.key| < |url| {
      var at := pos + |n.key|;
      assert Best(f, n, 1, url, at) == Better(Best(f, n, 0, url, at), Try(f, c, url, at));
      if StartsWith(url, at, c.key) {
        FindSame(f, Merged(n), c, url, at + |c.key|);
      }
    }
  }

  /** Path compression preserves meaning: a search through the node has the same
      outcome, and the same captures, before and after. */
  lemma {:induction false} OptimizedFinds(f: Strtod, n: Node, url: string, pos: nat)
    requires pos < |url| && Labelled(n)
    ensures Try(f, OptimizeNode(n), url, pos) == Try(f, n, url, pos)
    decreases Size(n), 1
  {
    if n.children == [] {
    } else if IsSimpleNode(n) {
      MergedIsSmaller(n);
      assert Labelled(n.children[0]);
      OptimizedFinds(f, Merged(n), url, pos);
      MergedFinds(f, n, url, pos);
    } else {
      var m := OptimizeNode(n);
      forall end | pos <= end <= |url| ensures FindIn(f, m, url, end) == FindIn(f, n, url, end) {
        OptimizedBelow(f, n, url, end);
      }
      TrySame(f, m, n, url, pos);
    }
  }

  lemma {:induction false} TrySame(f: Strtod, a: Node, b: Node, url: string, pos: nat)
    requires pos < |url| && a.param == b.param && a.key == b.key
    requires forall end :: pos <= end <= |url| ==> FindIn(f, a, url, end) == FindIn(f, b, url, end)
    ensures Try(f, a, url, pos) == Try(f, b, url, pos)
  {
    hide FindIn, Take;
    var t := Take(f, a.param, url, pos);
    if a.param != MAX && t.Some? {
      assert FindIn(f, a, url, t.value.0) == FindIn(f, b, url, t.value.0);
    } else if a.param == MAX && StartsWith(url, pos, a.key) {
      assert FindIn(f, a, url, pos + |a.key|) == FindIn(f, b, url, pos + |a.key|);
    }
  }

  lemma {:induction false} OptimizedBelow(f: Strtod, n: Node, url: string, pos: nat)
    requires pos <= |url| && Labelled(n)
    ensures FindIn(f, n.(children := OptimizeChildren(n, |n.children|)), url, pos) == FindIn(f, n, url, pos)
    decreases Size(n), 0
  {
    if pos < |url| {
      var m := n.(children := OptimizeChildren(n, |n.children|));
      forall i | 0 <= i < |n.children|
        ensures Try(f, m.children[i], url, pos) == Try(f, n.children[i], url, pos)
      {
        assert SizeBelow(n, |n.children|) >= Size(n.children[i]);
        OptimizedFinds(f, n.children[i], url, pos);
      }
      BestSame(f, m, n, |n.children|, url, pos);
    }
  }

  lemma {:induction false} OptimizedLabelled(n: Node)
    requires Labelled(n)
    ensures Labelled(OptimizeNode(n)) && (Label(n) != [] ==> Label(OptimizeNode(n)) != [])
    decreases Size(n)
  {
    if n.children == [] {
    } else if IsSimpleNode(n) {
      MergedIsSmaller(n);
      assert Labelled(n.children[0]) && Label(n.children[0]) != [];
      OptimizedLabelled(Merged(n));
    } else {
      forall i | 0 <= i < |n.children|
        ensures Labelled(OptimizeNode(n.children[i])) && Label(OptimizeNode(n.children[i])) != []
      {
        assert SizeBelow(n, |n.children|) >= Size(n.children[i]);
        assert Labelled(n.children[i]) && Label(n.children[i]) != [];
        OptimizedLabelled(n.children[i]);
      }
    }
  }

  /** No node of the tree can be merged with its child any more. */
  ghost predicate Compressed(n: Node) {
    && (n.children != [] ==> !IsSimpleNode(n))
    && forall k :: 0 <= k < |n.children| ==> Compressed(n.children[k])
  }

  lemma {:induction false} OptimizedIsCompressed(n: Node)
    ensures Compressed(OptimizeNode(n))
    decreases Size(n)
  {
    if n.children == [] {
    } else if IsSimpleNode(n) {
      MergedIsSmaller(n);
      OptimizedIsCompressed(Merged(n));
    } else {
      forall i | 0 <= i < |n.children|
        ensures Compressed(OptimizeNode(n.children[i])) && OptimizeNode(n.children[i]).param == n.children[i].param
      {
        assert SizeBelow(n, |n.children|) >= Size(n.children[i]);
        OptimizedIsCompressed(n.children[i]);
        OptimizedParam(n.children[i]);
      }
      var m := OptimizeNode(n);
      assert forall k :: 0 <= k < |n.children| ==> n.children[k].param == m.children[k].param;
    }
  }

  lemma {:induction false} OptimizedParam(n: Node)
    ensures OptimizeNode(n).param == n.param
    decreases Size(n)
  {
    if n.children != [] && IsSimpleNode(n) {
      MergedIsSmaller(n);
      OptimizedParam(Merged(n));
    }
  }
}
