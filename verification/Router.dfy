/** The routing tree of one method: rules are added, then paths are compressed,
    then URLs are looked up. */
module Router {
  import opened RouterModel
  import opened RouterOptimize
  import opened RouterTree

  /** Captured values, by type. */
  datatype Params = Params(ints: seq<int>, uints: seq<nat>, doubles: seq<real>, strings: seq<string>)

  const NO_PARAMS := Params([], [], [], [])

  function Added(p: Params, c: Capture): Params {
    match c
    case Int(v) => p.(ints := p.ints + [v])
    case Uint(v) => p.(uints := p.uints + [v])
    case Double(v) => p.(doubles := p.doubles + [v])
    case Str(v) => p.(strings := p.strings + [v])
  }

  function AllAdded(p: Params, captures: seq<Capture>): Params
    decreases |captures|
  {
    if captures == [] then p else AllAdded(Added(p, captures[0]), captures[1..])
  }

  /** The values captured so far on the way down the tree. */
  class ParamStack {
    var int_params: seq<int>
    var uint_params: seq<nat>
    var double_params: seq<real>
    var string_params: seq<string>

    function Value(): Params
      reads this
    {
      Params(int_params, uint_params, double_params, string_params)
    }

    constructor ()
      ensures Value() == NO_PARAMS
    {
      int_params, uint_params, double_params, string_params := [], [], [], [];
    }

    method Push(c: Capture)
      modifies this
      ensures Value() == Added(old(Value()), c)
    {
      match c
      case Int(v) => int_params := int_params + [v];
      case Uint(v) => uint_params := uint_params + [v];
      case Double(v) => double_params := double_params + [v];
      case Str(v) => string_params := string_params + [v];
    }

    /** Takes off the last value of the type of `c`. */
    method Pop(c: Capture, ghost p: Params)
      requires Value() == Added(p, c)
      modifies this
      ensures Value() == p
    {
      match c
      case Int(_) => int_params := int_params[..|int_params| - 1];
      case Uint(_) => uint_params := uint_params[..|uint_params| - 1];
      case Double(_) => double_params := double_params[..|double_params| - 1];
      case Str(_) => string_params := string_params[..|string_params| - 1];
    }
  }

  /** A result of the search, as a match or none. */
  ghost predicate Reports(rule: nat, found: Params, p: Params, m: Match) {
    if m.NoMatch? then rule == 0 else rule == m.rule && found == AllAdded(p, m.captures)
  }

  class Trie {
    var head: Node
    const strtod: Strtod

    /** The rule under each pattern, and the tree before paths are compressed. */
    ghost var rules: map<seq<Token>, nat>
    ghost var plain: Node

    ghost predicate Valid()
      reads this
    {
      && Single(plain)
      && RulesAre(plain, rules)
      && Labelled(head)
      && forall url :: FindIn(strtod, head, url, 0) == FindIn(strtod, plain, url, 0)
    }

    constructor (strtod: Strtod)
      ensures Valid() && head == plain && rules == map[]
      ensures this.strtod == strtod
    {
      head, plain, rules, this.strtod := EMPTY, EMPTY, map[], strtod;
    }

    /** Adds a rule under a pattern, one node a token; a pattern that has a rule
        keeps it. */
    method Add(url: string, rule: nat) returns (ok: bool)
      requires Valid() && head == plain && WellFormed(url, 0) && rule < 0x1_0000
      modifies this
      ensures Valid() && head == plain
      ensures ok <==> Tokens(url, 0) !in old(rules)
      ensures !ok ==> rules == old(rules)
      ensures ok ==> rules == if rule == 0 then old(rules) else old(rules)[Tokens(url, 0) := rule]
    {
      hide Single, RulesAre, FindIn, Labelled;
      var idx := Walk(url);
      RuleAdded(head, idx, rules, rule);
      ok := At(head, idx).rule == 0;
      if ok {
        if rule != 0 {
          rules := rules[Tokens(url, 0) := rule];
        }
        head := Rewritten(head, idx, At(head, idx).(rule := rule));
      }
      plain := head;
      SingleIsLabelled(head);
    }

    /** Follows a pattern down from the root, making the nodes that are missing. */
    method Walk(url: string) returns (idx: Path)
      requires Single(head) && RulesAre(head, rules) && WellFormed(url, 0)
      modifies this`head
      ensures Single(head) && RulesAre(head, rules)
      ensures IsPath(head, idx) && Spells(head, idx) == Tokens(url, 0)
    {
      hide Single, RulesAre;
      var i := 0;
      idx := [];
      while i < |url|
        invariant 0 <= i <= |url| && WellFormed(url, i)
        invariant Single(head) && RulesAre(head, rules) && IsPath(head, idx)
        invariant Spells(head, idx) + Tokens(url, i) == Tokens(url, 0)
        decreases |url| - i
      {
        if url[i] == '<' {
          var tag := TagAt(url, i).value;
          ghost var rest := Tokens(url, i + tag.1);
          Assoc(Spells(head, idx), [Typed(tag.0)], rest);
          idx := Enter(idx, tag.0, "");
          i := i + tag.1;
        } else {
          Assoc(Spells(head, idx), [Literal(url[i])], Tokens(url, i + 1));
          assert Literals([url[i]]) == [Literal(url[i])];
          idx := Enter(idx, MAX, [url[i]]);
          i := i + 1;
        }
      }
      assert Spells(head, idx) + [] == Spells(head, idx);
    }

    /** Moves on to the child that stands for a tag or a character, which is
        made if there is none. */
    method Enter(idx: Path, param: ParamType, key: string) returns (next: Path)
      requires Single(head) && RulesAre(head, rules) && IsPath(head, idx)
      requires OneToken(Node(0, key, param, []))
      modifies this`head
      ensures Single(head) && RulesAre(head, rules) && IsPath(head, next)
      ensures Spells(head, next) == Spells(old(head), idx) + Label(Node(0, key, param, []))
    {
      var n, c := At(head, idx), Node(0, key, param, []);
      SingleAt(head, idx);
      var k := 0;
      while k < |n.children|
        invariant 0 <= k <= |n.children| && head == old(head)
        invariant forall j :: 0 <= j < k ==> Label(n.children[j]) != Label(c)
      {
        assert OneToken(n.children[k]);
        SameLabel(n.children[k], c);
        if (if param != MAX then n.children[k].param == param else HeadOf(n.children[k].key) == key[0]) {
          PathDown(head, idx, k);
          return idx + [k];
        }
        k := k + 1;
      }
      var m := n.(children := n.children + [c]);
      NewChildHolds(n, c);
      RewrittenHolds(head, idx, m, [], 0);
      RewrittenSingle(head, idx, m);
      RewrittenPath(head, idx, m);
      RulesStay(head, Rewritten(head, idx, m), rules, Spells(head, idx) + []);
      head := Rewritten(head, idx, m);
      PathDown(head, idx, k);
      return idx + [k];
    }

    /** The first character of a key, with the NUL that ends it. */
    function HeadOf(key: string): char { if key == "" then '\0' else key[0] }

    /** Compresses the paths below the root, in place. */
    method Optimize()
      requires Valid()
      modifies this`head
      ensures Valid()
      ensures |head.children| == |old(head).children| && head.rule == old(head).rule
      ensures forall k :: 0 <= k < |head.children| ==> Compressed(head.children[k])
      ensures forall url :: FindIn(strtod, head, url, 0) == FindIn(strtod, old(head), url, 0)
    {
      ghost var before := head;
      var k := 0;
      while k < |head.children|
        invariant 0 <= k <= |head.children| == |before.children| && head.rule == before.rule
        invariant forall i :: 0 <= i < |before.children| ==>
            head.children[i] == if i < k then OptimizeNode(before.children[i]) else before.children[i]
      {
        head := head.(children := head.children[k := OptimizeNode(head.children[k])]);
        k := k + 1;
      }
      forall i | 0 <= i < |before.children|
        ensures Compressed(head.children[i]) && Label(head.children[i]) != [] && Labelled(head.children[i])
      {
        assert Label(before.children[i]) != [] && Labelled(before.children[i]);
        OptimizedIsCompressed(before.children[i]);
        OptimizedLabelled(before.children[i]);
      }
      forall url ensures FindIn(strtod, head, url, 0) == FindIn(strtod, before, url, 0) {
        HeadFinds(before, url);
      }
    }

    lemma HeadFinds(before: Node, url: string)
      requires Labelled(before) && head.rule == before.rule && |head.children| == |before.children|
      requires forall i :: 0 <= i < |before.children| ==> head.children[i] == OptimizeNode(before.children[i])
      ensures FindIn(strtod, head, url, 0) == FindIn(strtod, before, url, 0)
    {
      if url != "" {
        forall i | 0 <= i < |before.children|
          ensures Try(strtod, head.children[i], url, 0) == Try(strtod, before.children[i], url, 0)
        {
          assert Labelled(before.children[i]);
          OptimizedFinds(strtod, before.children[i], url, 0);
        }
        BestSame(strtod, head, before, |head.children|, url, 0);
      }
    }

    /** Checks the root, and compresses the paths. */
    method Validate() returns (ok: bool)
      requires Valid()
      modifies this`head
      ensures Valid() && ok == IsSimpleNode(old(head))
      ensures !ok ==> head == old(head)
    {
      if !IsSimpleNode(head) {
        return false;
      }
      Optimize();
      return true;
    }

    /** Finds the smallest rule whose pattern the URL matches, with the values it
        captures; zero if there is none. */
    method Find(url: string) returns (rule: nat, params: Params)
      requires Valid()
      ensures Reports(rule, params, NO_PARAMS, FindIn(strtod, head, url, 0))
      ensures rule == 0 <==> forall ts :: ts in rules ==> Matches(strtod, ts, url, 0).None?
      ensures forall ts :: ts in rules && Matches(strtod, ts, url, 0).Some? ==> rule <= rules[ts]
      ensures rule != 0 ==>
                exists ts :: ts in rules && rules[ts] == rule
                  && Matches(strtod, ts, url, 0).Some?
                  && params == AllAdded(NO_PARAMS, Matches(strtod, ts, url, 0).value)
    {
      var empty := new ParamStack();
      rule, params := FindFrom(url, head, 0, empty);
      FindIsLeast(url);
    }

    lemma FindIsLeast(url: string)
      requires Valid()
      ensures var m := FindIn(strtod, head, url, 0);
              && (m.Match? ==> exists ts :: ts in rules && rules[ts] == m.rule
                                            && Matches(strtod, ts, url, 0) == Some(m.captures))
              && forall ts :: ts in rules && Matches(strtod, ts, url, 0).Some? ==>
                   m.Match? && m.rule <= rules[ts]
    {
      var m := FindIn(strtod, plain, url, 0);
      SingleIsLabelled(plain);
      if m.Match? {
        var ts := FoundMatches(strtod, plain, url, 0);
        assert Holds(plain, ts, m.rule);
      }
      forall ts | ts in rules && Matches(strtod, ts, url, 0).Some?
        ensures m.Match? && m.rule <= rules[ts]
      {
        FoundIsLeast(strtod, plain, url, 0, ts, rules[ts]);
      }
    }

    /** The search below a node: `params` is changed on the way and restored. */
    method FindFrom(url: string, node: Node, pos: nat, params: ParamStack) returns (found: nat, match_params: Params)
      requires pos <= |url|
      modifies params
      ensures params.Value() == old(params.Value())
      ensures Reports(found, match_params, old(params.Value()), FindIn(strtod, node, url, pos))
      decreases node
    {
      hide AllAdded, Added, FindIn, Best;
      NoneAdded(params.Value());
      FindInIs(node, url, pos);
      if pos == |url| {
        return node.rule, params.Value();
      }
      ghost var p := params.Value();
      found, match_params := 0, NO_PARAMS;
      var k := 0;
      while k < |node.children|
        invariant 0 <= k <= |node.children| && params.Value() == p
        invariant Reports(found, match_params, p, Best(strtod, node, k, url, pos))
      {
        var child := node.children[k];
        BestNext(node, k, url, pos);
        if child.param != MAX {
          var t := TakeFrom(child.param, url, pos);
          if t.Some? {
            params.Push(t.value.1);
            var rule, r_params := FindFrom(url, child, t.value.0, params);
            AddedFirst(p, t.value.1, FindIn(strtod, child, url, t.value.0));
            if rule != 0 && (found == 0 || found > rule) {
              found, match_params := rule, r_params;
            }
            params.Pop(t.value.1, p);
          }
        } else if StartsWith(url, pos, child.key) {
          var rule, r_params := FindFrom(url, child, pos + |child.key|, params);
          if rule != 0 && (found == 0 || found > rule) {
            found, match_params := rule, r_params;
          }
        }
        k := k + 1;
      }
    }

    lemma FindInIs(node: Node, url: string, pos: nat)
      requires pos <= |url|
      ensures FindIn(strtod, node, url, pos)
              == if pos == |url| then (if node.rule == 0 then NoMatch else Match(node.rule, []))
                 else Best(strtod, node, |node.children|, url, pos)
      ensures pos < |url| ==> Best(strtod, node, 0, url, pos) == NoMatch
    {
    }

    lemma BestNext(node: Node, k: nat, url: string, pos: nat)
      requires k < |node.children| && pos < |url|
      ensures Best(strtod, node, k + 1, url, pos)
              == Better(Best(strtod, node, k, url, pos), Try(strtod, node.children[k], url, pos))
    {
    }

    lemma NoneAdded(p: Params)
      ensures AllAdded(p, []) == p
    {
    }

    lemma AddedFirst(p: Params, c: Capture, m: Match)
      ensures m.Match? ==> AllAdded(Added(p, c), m.captures) == AllAdded(p, Captured([c], m).captures)
    {
      if m.Match? {
        assert ([c] + m.captures)[1..] == m.captures;
      }
    }

    /** What a typed part takes; a string runs up to the next slash. */
    method TakeFrom(param: ParamType, url: string, pos: nat) returns (t: Option<(nat, Capture)>)
      requires pos < |url|
      ensures t == Take(strtod, param, url, pos)
    {
      if param != STRING {
        return Take(strtod, param, url, pos);
      }
      var epos := pos;
      while epos < |url| && url[epos] != '/'
        invariant pos <= epos <= |url| && SlashFrom(url, pos) == SlashFrom(url, epos)
      {
        epos := epos + 1;
      }
      return if epos != pos then Some((epos, Str(url[pos..epos]))) else None;
    }
  }
}
