/** A compiled Mustache template as a flat list of actions, and the tree of blocks
    that it stands for. */
module MustacheModel {

  datatype Option<+T> = None | Some(value: T)

  datatype ActionType = Ignore | Tag | UnescapeTag | OpenBlock | CloseBlock | ElseBlock | Partial

  /** `start` and `end` give the name in the template; a block has the number of
      its closing action in `pos`, a closing action that of its block. */
  datatype Action = Action(t: ActionType, start: nat, end: nat, pos: nat)

  predicate IsBlock(a: Action) { a.t == OpenBlock || a.t == ElseBlock }

  // The structure of a list of actions.

  /** The actions from `lo` up to `hi` are single actions and whole blocks, each
      block linked with its closing action. */
  ghost predicate Balanced(actions: seq<Action>, lo: nat, hi: nat)
    requires lo <= hi <= |actions|
    decreases hi - lo
  {
    if lo == hi then true
    else if IsBlock(actions[lo]) then
      var p := actions[lo].pos;
      && lo < p < hi && actions[p].t == CloseBlock && actions[p].pos == lo
      && Balanced(actions, lo + 1, p) && Balanced(actions, p + 1, hi)
    else actions[lo].t != CloseBlock && Balanced(actions, lo + 1, hi)
  }

  lemma {:induction false} BalancedConcat(actions: seq<Action>, lo: nat, mid: nat, hi: nat)
    requires lo <= mid <= hi <= |actions| && Balanced(actions, lo, mid) && Balanced(actions, mid, hi)
    ensures Balanced(actions, lo, hi)
    decreases hi - lo
  {
    if lo < mid {
      BalancedConcat(actions, if IsBlock(actions[lo]) then actions[lo].pos + 1 else lo + 1, mid, hi);
    }
  }

  /** Actions outside a range do not matter to it. */
  lemma {:induction false} BalancedStays(a: seq<Action>, b: seq<Action>, lo: nat, hi: nat)
    requires lo <= hi <= |a| && hi <= |b| && Balanced(a, lo, hi)
    requires forall i :: lo <= i < hi ==> a[i] == b[i]
    ensures Balanced(b, lo, hi)
    decreases hi - lo
  {
    if lo < hi {
      if IsBlock(a[lo]) {
        BalancedStays(a, b, lo + 1, a[lo].pos);
        BalancedStays(a, b, a[lo].pos + 1, hi);
      } else {
        BalancedStays(a, b, lo + 1, hi);
      }
    }
  }

  /** All is balanced between the blocks that are still open. */
  ghost predicate BalancedBut(actions: seq<Action>, lo: nat, open: seq<nat>)
    decreases |open|
  {
    && lo <= |actions|
    && if open == [] then Balanced(actions, lo, |actions|)
       else
         var last := open[|open| - 1];
         && lo <= last < |actions| && IsBlock(actions[last]) && actions[last].pos == 0
         && Balanced(actions, last + 1, |actions|)
         && BalancedBut(actions[..last], lo, open[..|open| - 1])
  }

  /** How deep in blocks the action at `i` is, counted from `lo`. */
  function Depth(actions: seq<Action>, lo: nat, i: nat): int
    requires lo <= i <= |actions|
    decreases i
  {
    if i == lo then 0
    else
      Depth(actions, lo, i - 1)
      + if IsBlock(actions[i - 1]) then 1 else if actions[i - 1].t == CloseBlock then -1 else 0
  }

  lemma {:induction false} DepthConcat(actions: seq<Action>, lo: nat, mid: nat, i: nat)
    requires lo <= mid <= i <= |actions|
    ensures Depth(actions, lo, i) == Depth(actions, lo, mid) + Depth(actions, mid, i)
    decreases i
  {
    if mid < i {
      DepthConcat(actions, lo, mid, i - 1);
    }
  }

  lemma {:induction false} BalancedDepth(actions: seq<Action>, lo: nat, hi: nat, i: nat)
    requires lo <= i <= hi <= |actions| && Balanced(actions, lo, hi)
    ensures Depth(actions, lo, i) >= 0 && (i == hi ==> Depth(actions, lo, i) == 0)
    decreases hi - lo
  {
    if lo < i {
      DepthConcat(actions, lo, lo + 1, i);
      assert Depth(actions, lo, lo) == 0;
      if IsBlock(actions[lo]) {
        var p := actions[lo].pos;
        if i <= p {
          BalancedDepth(actions, lo + 1, p, i);
        } else {
          BalancedDepth(actions, lo + 1, p, p);
          DepthConcat(actions, lo + 1, p, p + 1);
          DepthConcat(actions, lo + 1, p + 1, i);
          assert Depth(actions, p, p) == 0;
          BalancedDepth(actions, p + 1, hi, i);
        }
      } else {
        BalancedDepth(actions, lo + 1, hi, i);
      }
    }
  }

  /** A block is linked with the first closing action that ends its depth. */
  lemma {:induction false} LinkIsMatching(actions: seq<Action>, lo: nat, hi: nat)
    requires lo < hi <= |actions| && Balanced(actions, lo, hi) && IsBlock(actions[lo])
    ensures var p := actions[lo].pos;
            && lo < p < hi && Depth(actions, lo, p + 1) == 0
            && forall i :: lo < i <= p ==> Depth(actions, lo, i) > 0
  {
    var p := actions[lo].pos;
    forall i | lo < i <= p ensures Depth(actions, lo, i) > 0 {
      DepthConcat(actions, lo, lo + 1, i);
      assert Depth(actions, lo, lo) == 0;
      BalancedDepth(actions, lo + 1, p, i);
    }
    DepthConcat(actions, lo, lo + 1, p);
    assert Depth(actions, lo, lo) == 0;
    BalancedDepth(actions, lo + 1, p, p);
  }

  // The tree of blocks.

  /** A piece of a template; tags and blocks have the number of their action. */
  datatype Piece =
    | Text(s: string)
    | Leaf(i: nat)
    | Section(i: nat, kids: seq<Piece>)
    | Inverted(i: nat, kids: seq<Piece>)

  /** The tree that the actions from `lo` up to `hi` stand for, with the text before
      each; the text before a closing action ends its block. */
  function Tree(texts: seq<string>, actions: seq<Action>, lo: nat, hi: nat): seq<Piece>
    requires lo <= hi <= |actions| == |texts|
    decreases hi - lo
  {
    if lo == hi then []
    else
      var a := actions[lo];
      [Text(texts[lo])]
      + if IsBlock(a) && lo < a.pos < hi then
          var kids := Tree(texts, actions, lo + 1, a.pos) + [Text(texts[a.pos])];
          [if a.t == OpenBlock then Section(lo, kids) else Inverted(lo, kids)]
          + Tree(texts, actions, a.pos + 1, hi)
        else if a.t == Tag || a.t == UnescapeTag || a.t == Partial then
          [Leaf(lo)] + Tree(texts, actions, lo + 1, hi)
        else Tree(texts, actions, lo + 1, hi)
  }

  // What a tree means.

  /** What looking up the name of a block gives: nothing; null or false; a value
      to go into; a list of values; or something that a block cannot be. */
  datatype Found<+C> = NotFound | NullOrFalse | Single(ctx: C) | Items(ctxs: seq<C>) | Other

  /** The contexts: what a tag or a partial puts out (nothing if it is of a kind it
      cannot be), what a block looks up, and the context of an inverted block. */
  datatype Env<!C> = Env(tag: (nat, seq<C>) -> Option<string>, look: (nat, seq<C>) -> Found<C>, nothing: C)

  datatype Outcome = Out(s: string) | Throws

  function Then(a: Outcome, b: Outcome): Outcome {
    if a.Throws? || b.Throws? then Throws else Out(a.s + b.s)
  }

  function Meaning<C>(env: Env<C>, p: Piece, stack: seq<C>): Outcome
    decreases p, 2
  {
    match p
    case Text(s) => Out(s)
    case Leaf(i) => (match env.tag(i, stack) case None => Throws case Some(s) => Out(s))
    case Section(i, kids) =>
      (match env.look(i, stack)
       case NotFound => Out("")
       case NullOrFalse => Out("")
       case Single(ctx) => Meanings(env, kids, stack + [ctx])
       case Items(ctxs) => ForEach(env, kids, ctxs, stack)
       case Other => Throws)
    case Inverted(i, kids) =>
      if Skips(env.look(i, stack)) then Out("") else Meanings(env, kids, stack + [env.nothing])
  }

  /** An inverted block is passed over when the name stands for something. */
  predicate Skips<C>(found: Found<C>) {
    match found
    case NotFound => false
    case NullOrFalse => false
    case Items(ctxs) => ctxs != []
    case Single(_) => true
    case Other => true
  }

  function Meanings<C>(env: Env<C>, ps: seq<Piece>, stack: seq<C>): Outcome
    decreases ps, 0
  {
    if ps == [] then Out("") else Then(Meaning(env, ps[0], stack), Meanings(env, ps[1..], stack))
  }

  /** The inside of a block, once for each of the values. */
  function ForEach<C>(env: Env<C>, ps: seq<Piece>, ctxs: seq<C>, stack: seq<C>): Outcome
    decreases ps, 1, |ctxs|
  {
    if ctxs == [] then Out("")
    else Then(Meanings(env, ps, stack + [ctxs[0]]), ForEach(env, ps, ctxs[1..], stack))
  }

  lemma ThenAssoc(a: Outcome, b: Outcome, c: Outcome)
    ensures Then(Then(a, b), c) == Then(a, Then(b, c))
    ensures Then(a, Out("")) == a && Then(Out(""), a) == a
  {
    if a.Out? && b.Out? && c.Out? {
      assert a.s + b.s + c.s == a.s + (b.s + c.s);
    }
  }

  lemma {:induction false} MeaningsConcat<C>(env: Env<C>, a: seq<Piece>, b: seq<Piece>, stack: seq<C>)
    ensures Meanings(env, a + b, stack) == Then(Meanings(env, a, stack), Meanings(env, b, stack))
    decreases |a|
  {
    if a == [] {
      assert a + b == b;
      ThenAssoc(Meanings(env, b, stack), Out(""), Out(""));
    } else {
      MeaningsConcat(env, a[1..], b, stack);
      assert (a + b)[0] == a[0] && (a + b)[1..] == a[1..] + b;
      ThenAssoc(Meaning(env, a[0], stack), Meanings(env, a[1..], stack), Meanings(env, b, stack));
    }
  }

  lemma {:induction false} MeaningsOne<C>(env: Env<C>, p: Piece, stack: seq<C>)
    ensures Meanings(env, [p], stack) == Meaning(env, p, stack)
  {
    assert [p][1..] == [];
    ThenAssoc(Meaning(env, p, stack), Out(""), Out(""));
  }
}
