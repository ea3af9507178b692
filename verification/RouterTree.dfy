/** The tree while rules are added: one character or one tag a node, and a path
    of child numbers in the place of a pointer into it. */
module RouterTree {
  import opened RouterModel

  type Path = seq<nat>

  predicate OneToken(n: Node) {
    if n.param != MAX then n.key == "" else |n.key| == 1 && n.key[0] != '\0'
  }

  /** Every node stands for one token, and no two children for the same. */
  ghost predicate Single(n: Node) {
    forall k :: 0 <= k < |n.children| ==>
      && OneToken(n.children[k]) && Single(n.children[k])
      && forall j :: 0 <= j < k ==> Label(n.children[j]) != Label(n.children[k])
  }

  predicate IsPath(n: Node, path: Path)
    decreases |path|
  {
    path == [] || (path[0] < |n.children| && IsPath(n.children[path[0]], path[1..]))
  }

  function At(n: Node, path: Path): Node
    requires IsPath(n, path)
    decreases |path|
  {
    if path == [] then n else At(n.children[path[0]], path[1..])
  }

  /** The tree with the node at `path` rewritten. */
  function Rewritten(n: Node, path: Path, m: Node): Node
    requires IsPath(n, path)
    decreases |path|
  {
    if path == [] then m
    else
      var k := path[0];
      n.(children := n.children[k := Rewritten(n.children[k], path[1..], m)])
  }

  /** What the path spells out. */
  function Spells(n: Node, path: Path): seq<Token>
    requires IsPath(n, path)
    decreases |path|
  {
    if path == [] then [] else Label(n.children[path[0]]) + Spells(n.children[path[0]], path[1..])
  }

  lemma {:induction false} RewrittenPath(n: Node, path: Path, m: Node)
    requires IsPath(n, path)
    requires m.param == At(n, path).param && m.key == At(n, path).key
    ensures var n' := Rewritten(n, path, m);
            && IsPath(n', path) && At(n', path) == m && Spells(n', path) == Spells(n, path)
            && n'.param == n.param && n'.key == n.key
    decreases |path|
  {
    if path != [] {
      RewrittenPath(n.children[path[0]], path[1..], m);
    }
  }

  lemma {:induction false} PathDown(n: Node, path: Path, k: nat)
    requires IsPath(n, path) && k < |At(n, path).children|
    ensures var c := At(n, path).children[k];
            IsPath(n, path + [k]) && At(n, path + [k]) == c && Spells(n, path + [k]) == Spells(n, path) + Label(c)
    decreases |path|
  {
    if path != [] {
      PathDown(n.children[path[0]], path[1..], k);
      assert (path + [k])[0] == path[0] && (path + [k])[1..] == path[1..] + [k];
    } else {
      assert [k][1..] == [];
    }
  }

  lemma {:induction false} SingleAt(n: Node, path: Path)
    requires Single(n) && IsPath(n, path)
    ensures Single(At(n, path))
    decreases |path|
  {
    if path != [] {
      SingleAt(n.children[path[0]], path[1..]);
    }
  }

  lemma {:induction false} RewrittenSingle(n: Node, path: Path, m: Node)
    requires Single(n) && IsPath(n, path) && Single(m)
    requires m.param == At(n, path).param && m.key == At(n, path).key
    ensures Single(Rewritten(n, path, m))
    decreases |path|
  {
    if path != [] {
      var k := path[0];
      RewrittenSingle(n.children[k], path[1..], m);
      RewrittenPath(n.children[k], path[1..], m);
      var n' := Rewritten(n, path, m);
      assert forall i :: 0 <= i < |n.children| ==> Label(n'.children[i]) == Label(n.children[i]);
      assert forall i :: 0 <= i < |n.children| ==> OneToken(n'.children[i]) && Single(n'.children[i]);
    }
  }

  /** `m` holds what `n` does, and `rule` under `ts` besides. */
  ghost predicate HoldsAlso(n: Node, m: Node, ts: seq<Token>, rule: nat) {
    forall t, r :: Holds(m, t, r) <==> Holds(n, t, r) || (t == ts && r == rule && r != 0)
  }

  /** A change at the end of a path shows at the root under what the path spells. */
  lemma {:induction false} RewrittenHolds(n: Node, path: Path, m: Node, ts: seq<Token>, rule: nat)
    requires IsPath(n, path) && HoldsAlso(At(n, path), m, ts, rule)
    requires m.param == At(n, path).param && m.key == At(n, path).key
    ensures HoldsAlso(n, Rewritten(n, path, m), Spells(n, path) + ts, rule)
    decreases |path|
  {
    if path == [] {
      assert [] + ts == ts;
    } else {
      var k := path[0];
      var c := n.children[k];
      RewrittenHolds(c, path[1..], m, ts, rule);
      RewrittenPath(c, path[1..], m);
      ChildHolds(n, k, Rewritten(c, path[1..], m), Spells(c, path[1..]) + ts, rule);
      Assoc(Label(c), Spells(c, path[1..]), ts);
    }
  }

  lemma Assoc(a: seq<Token>, b: seq<Token>, c: seq<Token>)
    ensures a + b + c == a + (b + c)
  {
  }

  lemma {:induction false} ChildHolds(n: Node, k: nat, c': Node, ts: seq<Token>, rule: nat)
    requires k < |n.children| && HoldsAlso(n.children[k], c', ts, rule)
    requires Label(c') == Label(n.children[k])
    ensures HoldsAlso(n, n.(children := n.children[k := c']), Label(c') + ts, rule)
  {
    var n', l := n.(children := n.children[k := c']), Label(c');
    forall t, r ensures Holds(n', t, r) <==> Holds(n, t, r) || (t == l + ts && r == rule && r != 0) {
      assert HoldsBelow(n', k, t, r) <==> HoldsBelow(n, k, t, r) || (t == l + ts && r == rule && r != 0) by {
        if l <= t {
          assert t == l + t[|l|..];
        }
        assert (l + ts)[|l|..] == ts;
      }
      forall i | 0 <= i < |n.children| && i != k ensures HoldsBelow(n', i, t, r) <==> HoldsBelow(n, i, t, r) {
      }
    }
  }

  /** A new child without a rule changes nothing. */
  lemma {:induction false} NewChildHolds(n: Node, c: Node)
    requires c.rule == 0 && c.children == []
    ensures HoldsAlso(n, n.(children := n.children + [c]), [], 0)
  {
    var n' := n.(children := n.children + [c]);
    forall t, r ensures Holds(n', t, r) <==> Holds(n, t, r) {
      assert !HoldsBelow(n', |n.children|, t, r);
      forall i | 0 <= i < |n.children| ensures HoldsBelow(n', i, t, r) <==> HoldsBelow(n, i, t, r) {
      }
    }
  }

  lemma {:induction false} NewRuleHolds(n: Node, rule: nat)
    requires n.rule == 0
    ensures HoldsAlso(n, n.(rule := rule), [], rule)
  {
    var n' := n.(rule := rule);
    forall t, r ensures Holds(n', t, r) <==> Holds(n, t, r) || (t == [] && r == rule && r != 0) {
      forall i | 0 <= i < |n.children| ensures HoldsBelow(n', i, t, r) <==> HoldsBelow(n, i, t, r) {
      }
    }
  }

  lemma {:induction false} LabelIsOne(n: Node)
    requires OneToken(n)
    ensures |Label(n)| == 1
  {
  }

  lemma {:induction false} SameLabel(a: Node, b: Node)
    requires OneToken(a) && OneToken(b)
    ensures Label(a) == Label(b) <==> a.param == b.param && a.key == b.key
  {
    if a.param == MAX && b.param == MAX {
      assert Label(a)[0] == Literal(a.key[0]) && Label(b)[0] == Literal(b.key[0]);
      assert a.key == [a.key[0]] && b.key == [b.key[0]];
    } else {
      assert a.param != MAX ==> Label(a)[0] == Typed(a.param);
      assert b.param != MAX ==> Label(b)[0] == Typed(b.param);
      assert a.param == MAX ==> Label(a)[0] == Literal(a.key[0]);
      assert b.param == MAX ==> Label(b)[0] == Literal(b.key[0]);
    }
  }

  /** What the rules are once a tree that holds them gets one more. */
  ghost predicate RulesAre(n: Node, rules: map<seq<Token>, nat>) {
    forall ts, r :: Holds(n, ts, r) <==> ts in rules && rules[ts] == r
  }

  lemma {:induction false} RulesStay(n: Node, m: Node, rules: map<seq<Token>, nat>, ts: seq<Token>)
    requires RulesAre(n, rules) && HoldsAlso(n, m, ts, 0)
    ensures RulesAre(m, rules)
  {
  }

  /** The node at the end of the path of a pattern gets a rule. */
  lemma {:induction false} RuleAdded(n: Node, path: Path, rules: map<seq<Token>, nat>, rule: nat)
    requires Single(n) && RulesAre(n, rules) && IsPath(n, path)
    ensures var ts, m := Spells(n, path), At(n, path);
            && (m.rule != 0 <==> ts in rules)
            && (m.rule == 0 ==>
                  var n' := Rewritten(n, path, m.(rule := rule));
                  Single(n') && RulesAre(n', if rule == 0 then rules else rules[ts := rule]))
  {
    var ts, m := Spells(n, path), At(n, path);
    HoldsAt(n, path, m.rule);
    if ts in rules {
      HoldsAt(n, path, rules[ts]);
    }
    if m.rule == 0 {
      NewRuleHolds(m, rule);
      RewrittenHolds(n, path, m.(rule := rule), [], rule);
      SingleAt(n, path);
      RewrittenSingle(n, path, m.(rule := rule));
      assert ts + [] == ts;
    }
  }

  /** No other path leads to what the path spells. */
  lemma {:induction false} HoldsAt(n: Node, path: Path, rule: nat)
    requires Single(n) && IsPath(n, path)
    ensures Holds(n, Spells(n, path), rule) <==> At(n, path).rule == rule && rule != 0
    decreases |path|
  {
    if path == [] {
      forall k | 0 <= k < |n.children| ensures !HoldsBelow(n, k, [], rule) {
        LabelIsOne(n.children[k]);
      }
    } else {
      var k := path[0];
      var c, ts := n.children[k], Spells(n, path);
      HoldsAt(c, path[1..], rule);
      LabelIsOne(c);
      assert ts[|Label(c)|..] == Spells(c, path[1..]);
      forall i | 0 <= i < |n.children| && i != k ensures !HoldsBelow(n, i, ts, rule) {
        LabelIsOne(n.children[i]);
        assert Label(n.children[i]) != Label(c);
        assert Label(n.children[i])[0] != Label(c)[0] == ts[0];
      }
      assert HoldsBelow(n, k, ts, rule) <==> Holds(c, Spells(c, path[1..]), rule);
    }
  }

  lemma {:induction false} SingleIsLabelled(n: Node)
    requires Single(n)
    ensures Labelled(n)
  {
    forall k | 0 <= k < |n.children| ensures Label(n.children[k]) != [] && Labelled(n.children[k]) {
      LabelIsOne(n.children[k]);
      SingleIsLabelled(n.children[k]);
    }
  }
}
