/** The interpreter of the flat list of actions, which jumps over blocks and into
    them, against the meaning of the tree. */
module MustacheRender {
  import opened MustacheModel

  // What is still to be done.

  /** The rest of a block, or of the template, that ends before `b`. */
  ghost function Level<C>(env: Env<C>, texts: seq<string>, actions: seq<Action>, cur: nat, b: nat, stack: seq<C>): Outcome
    requires cur <= b < |actions| == |texts|
  {
    Meanings(env, Tree(texts, actions, cur, b) + [Text(texts[b])], stack)
  }

  /** The interpreter is inside the blocks that end at `opens`, the innermost
      last, in a range of actions that ends at `hi`. */
  ghost predicate Inside(actions: seq<Action>, cur: nat, opens: seq<nat>, hi: nat)
    decreases |opens|
  {
    && hi < |actions|
    && if opens == [] then cur <= hi && Balanced(actions, cur, hi)
       else
         var p := opens[|opens| - 1];
         && cur <= p < hi && actions[p].t == CloseBlock && Balanced(actions, cur, p)
         && Inside(actions, p + 1, opens[..|opens| - 1], hi)
  }

  ghost function Rest<C>(env: Env<C>, texts: seq<string>, actions: seq<Action>, cur: nat, opens: seq<nat>, hi: nat,
                         stack: seq<C>): Outcome
    requires |actions| == |texts| && Inside(actions, cur, opens, hi) && |opens| <= |stack|
    decreases |opens|
  {
    if opens == [] then Level(env, texts, actions, cur, hi, stack)
    else
      var p := opens[|opens| - 1];
      Then(Level(env, texts, actions, cur, p, stack),
           Rest(env, texts, actions, p + 1, opens[..|opens| - 1], hi, stack[..|stack| - 1]))
  }

  ghost function Bound(opens: seq<nat>, hi: nat): nat {
    if opens == [] then hi else opens[|opens| - 1]
  }

  /** The piece that a single action or a block stands for, if any. */
  ghost function PieceAt(texts: seq<string>, actions: seq<Action>, cur: nat, b: nat): seq<Piece>
    requires cur < b < |actions| == |texts| && Balanced(actions, cur, b)
  {
    var a := actions[cur];
    if IsBlock(a) then
      var kids := Tree(texts, actions, cur + 1, a.pos) + [Text(texts[a.pos])];
      [if a.t == OpenBlock then Section(cur, kids) else Inverted(cur, kids)]
    else if a.t == Tag || a.t == UnescapeTag || a.t == Partial then [Leaf(cur)]
    else []
  }

  ghost function Next(actions: seq<Action>, cur: nat): nat
    requires cur < |actions|
  {
    if IsBlock(actions[cur]) then actions[cur].pos + 1 else cur + 1
  }

  lemma TreeStep(texts: seq<string>, actions: seq<Action>, cur: nat, b: nat)
    requires cur < b < |actions| == |texts| && Balanced(actions, cur, b)
    ensures var n := Next(actions, cur);
            && n <= b && Balanced(actions, n, b)
            && Tree(texts, actions, cur, b) == [Text(texts[cur])] + (PieceAt(texts, actions, cur, b) + Tree(texts, actions, n, b))
  {
  }

  lemma {:induction false} LevelStep<C>(env: Env<C>, texts: seq<string>, actions: seq<Action>, cur: nat, b: nat,
                                        stack: seq<C>)
    requires cur < b < |actions| == |texts| && Balanced(actions, cur, b)
    ensures var n := Next(actions, cur);
            && n <= b && Balanced(actions, n, b)
            && Level(env, texts, actions, cur, b, stack)
               == Then(Out(texts[cur]),
                       Then(Meanings(env, PieceAt(texts, actions, cur, b), stack),
                            Level(env, texts, actions, n, b, stack)))
  {
    hide Meaning, Meanings, Tree, Balanced, PieceAt, Next, Then;
    TreeStep(texts, actions, cur, b);
    var n := Next(actions, cur);
    var piece, rest, end := PieceAt(texts, actions, cur, b), Tree(texts, actions, n, b), [Text(texts[b])];
    assert [Text(texts[cur])] + (piece + rest) + end == [Text(texts[cur])] + (piece + (rest + end));
    MeaningsConcat(env, [Text(texts[cur])], piece + (rest + end), stack);
    MeaningsConcat(env, piece, rest + end, stack);
    MeaningsOne(env, Text(texts[cur]), stack);
    TextMeans(env, texts[cur], stack);
  }

  lemma TextMeans<C>(env: Env<C>, s: string, stack: seq<C>)
    ensures Meaning(env, Text(s), stack) == Out(s)
  {
  }

  /** One step past a single action or a whole block. */
  lemma {:induction false} RestStep<C>(env: Env<C>, texts: seq<string>, actions: seq<Action>, cur: nat, opens: seq<nat>,
                                       hi: nat, stack: seq<C>)
    requires |actions| == |texts| && Inside(actions, cur, opens, hi) && |opens| <= |stack|
    requires cur < Bound(opens, hi)
    ensures var n := Next(actions, cur);
            && n <= Bound(opens, hi) && Inside(actions, n, opens, hi) && Balanced(actions, cur, Bound(opens, hi))
            && Rest(env, texts, actions, cur, opens, hi, stack)
               == Then(Out(texts[cur]),
                       Then(Meanings(env, PieceAt(texts, actions, cur, Bound(opens, hi)), stack),
                            Rest(env, texts, actions, n, opens, hi, stack)))
  {
    hide Level, Balanced, PieceAt, Meanings, Then, Next;
    var b, n := Bound(opens, hi), Next(actions, cur);
    LevelStep(env, texts, actions, cur, b, stack);
    if opens != [] {
      var r := Rest(env, texts, actions, b + 1, opens[..|opens| - 1], hi, stack[..|stack| - 1]);
      var m, l := Meanings(env, PieceAt(texts, actions, cur, b), stack), Level(env, texts, actions, n, b, stack);
      ThenAssoc(Out(texts[cur]), Then(m, l), r);
      ThenAssoc(m, l, r);
    }
  }

  /** At the end of a block. */
  lemma {:induction false} RestPop<C>(env: Env<C>, texts: seq<string>, actions: seq<Action>, opens: seq<nat>, hi: nat,
                                      stack: seq<C>)
    requires |actions| == |texts| && opens != [] && |opens| <= |stack|
    requires Inside(actions, opens[|opens| - 1], opens, hi)
    ensures var p := opens[|opens| - 1];
            Rest(env, texts, actions, p, opens, hi, stack)
            == Then(Out(texts[p]), Rest(env, texts, actions, p + 1, opens[..|opens| - 1], hi, stack[..|stack| - 1]))
  {
    var p := opens[|opens| - 1];
    LevelEnd(env, texts, actions, p, stack);
    hide Level;
  }

  lemma {:induction false} LevelEnd<C>(env: Env<C>, texts: seq<string>, actions: seq<Action>, p: nat, stack: seq<C>)
    requires p < |actions| == |texts|
    ensures Level(env, texts, actions, p, p, stack) == Out(texts[p])
  {
    assert Tree(texts, actions, p, p) + [Text(texts[p])] == [Text(texts[p])];
    MeaningsOne(env, Text(texts[p]), stack);
  }

  /** Going into a block. */
  lemma {:induction false} RestPush<C>(env: Env<C>, texts: seq<string>, actions: seq<Action>, cur: nat, opens: seq<nat>,
                                       hi: nat, stack: seq<C>, ctx: C)
    requires |actions| == |texts| && Inside(actions, cur, opens, hi) && |opens| <= |stack|
    requires cur < Bound(opens, hi) && IsBlock(actions[cur])
    ensures Balanced(actions, cur, Bound(opens, hi))
    ensures var p := actions[cur].pos;
            && p < |actions| && Inside(actions, cur + 1, opens + [p], hi) && Inside(actions, p + 1, opens, hi)
            && Rest(env, texts, actions, cur + 1, opens + [p], hi, stack + [ctx])
               == Then(Level(env, texts, actions, cur + 1, p, stack + [ctx]),
                       Rest(env, texts, actions, p + 1, opens, hi, stack))
  {
    var p := actions[cur].pos;
    assert (opens + [p])[..|opens|] == opens && (stack + [ctx])[..|stack|] == stack;
    hide Level;
  }

  // The interpreter.

  class Rendering<C> {
    var stack: seq<C>
    var out: string

    constructor (ctx: C)
      ensures stack == [ctx] && out == ""
    {
      stack, out := [ctx], "";
    }
  }

  ghost function KidsOf(texts: seq<string>, actions: seq<Action>, cur: nat): seq<Piece>
    requires cur < |actions| == |texts| && cur < actions[cur].pos < |actions|
  {
    Tree(texts, actions, cur + 1, actions[cur].pos) + [Text(texts[actions[cur].pos])]
  }

  /** What the action at `cur` does, if it does not go into a block: the text it
      stands for, in one go. */
  ghost function Effect<C>(env: Env<C>, texts: seq<string>, actions: seq<Action>, cur: nat, stack: seq<C>): Outcome
    requires cur < |actions| == |texts| && (IsBlock(actions[cur]) ==> cur < actions[cur].pos < |actions|)
  {
    var a := actions[cur];
    match a.t
    case OpenBlock =>
      (match env.look(cur, stack)
       case NotFound => Out("")
       case NullOrFalse => Out("")
       case Single(ctx) => Level(env, texts, actions, cur + 1, a.pos, stack + [ctx])
       case Items(ctxs) => ForEach(env, KidsOf(texts, actions, cur), ctxs, stack)
       case Other => Throws)
    case ElseBlock =>
      if Skips(env.look(cur, stack)) then Out("")
      else Level(env, texts, actions, cur + 1, a.pos, stack + [env.nothing])
    case Tag => (match env.tag(cur, stack) case None => Throws case Some(s) => Out(s))
    case UnescapeTag => (match env.tag(cur, stack) case None => Throws case Some(s) => Out(s))
    case Partial => (match env.tag(cur, stack) case None => Throws case Some(s) => Out(s))
    case _ => Out("")
  }

  lemma {:induction false} EffectIs<C>(env: Env<C>, texts: seq<string>, actions: seq<Action>, cur: nat, b: nat,
                                       stack: seq<C>)
    requires cur < b < |actions| == |texts| && Balanced(actions, cur, b)
    ensures Meanings(env, PieceAt(texts, actions, cur, b), stack) == Effect(env, texts, actions, cur, stack)
  {
    if PieceAt(texts, actions, cur, b) != [] {
      MeaningsOne(env, PieceAt(texts, actions, cur, b)[0], stack);
    }
  }

  /** One turn of the interpreter, on whatever action it is at. */
  lemma {:induction false} Turn<C>(env: Env<C>, texts: seq<string>, actions: seq<Action>, cur: nat, opens: seq<nat>,
                                   hi: nat, stack: seq<C>)
    requires |actions| == |texts| && Inside(actions, cur, opens, hi) && |opens| <= |stack| && cur < hi
    ensures actions[cur].t == CloseBlock ==>
              && opens != [] && Inside(actions, cur + 1, opens[..|opens| - 1], hi)
              && Rest(env, texts, actions, cur, opens, hi, stack)
                 == Then(Out(texts[cur]),
                         Rest(env, texts, actions, cur + 1, opens[..|opens| - 1], hi, stack[..|stack| - 1]))
    ensures actions[cur].t != CloseBlock ==>
              var n := Next(actions, cur);
              && (IsBlock(actions[cur]) ==>
                    && cur < actions[cur].pos < hi && Balanced(actions, cur + 1, actions[cur].pos)
                    && Inside(actions, cur + 1, opens + [actions[cur].pos], hi))
              && Inside(actions, n, opens, hi)
              && Rest(env, texts, actions, cur, opens, hi, stack)
                 == Then(Out(texts[cur]),
                         Then(Effect(env, texts, actions, cur, stack),
                              Rest(env, texts, actions, n, opens, hi, stack)))
  {
    if actions[cur].t == CloseBlock {
      assert opens != [] && cur == opens[|opens| - 1];
      RestPop(env, texts, actions, opens, hi, stack);
    } else {
      assert cur < Bound(opens, hi);
      RestStep(env, texts, actions, cur, opens, hi, stack);
      EffectIs(env, texts, actions, cur, Bound(opens, hi), stack);
      if IsBlock(actions[cur]) {
        InsideBlock(actions, cur, opens, hi);
      }
    }
  }

  lemma {:induction false} InsideBlock(actions: seq<Action>, cur: nat, opens: seq<nat>, hi: nat)
    requires Inside(actions, cur, opens, hi) && cur < Bound(opens, hi) && IsBlock(actions[cur])
    ensures var p := actions[cur].pos;
            cur < p < hi && Balanced(actions, cur + 1, p) && Inside(actions, cur + 1, opens + [p], hi)
  {
    var p, b := actions[cur].pos, Bound(opens, hi);
    InsideLevel(actions, cur, opens, hi);
    assert cur < p < b && Balanced(actions, cur + 1, p) && Balanced(actions, p + 1, b) && actions[p].t == CloseBlock;
    hide Balanced, Bound;
    InsideAt(actions, p + 1, b, opens, hi);
    assert (opens + [p])[..|opens|] == opens && (opens + [p])[|opens|] == p;
  }

  /** What is balanced up to the end of the innermost block can be gone through. */
  lemma {:induction false} InsideLevel(actions: seq<Action>, cur: nat, opens: seq<nat>, hi: nat)
    requires Inside(actions, cur, opens, hi)
    ensures var b := Bound(opens, hi);
            cur <= b <= hi && Balanced(actions, cur, b) && Inside(actions, b, opens, hi)
  {
    hide Balanced;
    BalancedNone(actions, Bound(opens, hi));
  }

  lemma {:induction false} InsideAt(actions: seq<Action>, n: nat, b: nat, opens: seq<nat>, hi: nat)
    requires b == Bound(opens, hi) && Inside(actions, b, opens, hi) && n <= b && Balanced(actions, n, b)
    ensures Inside(actions, n, opens, hi)
  {
    hide Balanced;
  }

  lemma BalancedNone(actions: seq<Action>, n: nat)
    ensures n <= |actions| ==> Balanced(actions, n, n)
  {
  }

  /** Going into a block leaves the same to be done. */
  lemma {:induction false} TurnInto<C>(env: Env<C>, texts: seq<string>, actions: seq<Action>, cur: nat, opens: seq<nat>,
                                       hi: nat, stack: seq<C>, ctx: C)
    requires |actions| == |texts| && Inside(actions, cur, opens, hi) && |opens| <= |stack| && cur < hi
    requires IsBlock(actions[cur])
    ensures var p := actions[cur].pos;
            && cur < p < hi && Inside(actions, cur + 1, opens + [p], hi) && Inside(actions, p + 1, opens, hi)
            && Rest(env, texts, actions, cur + 1, opens + [p], hi, stack + [ctx])
               == Then(Level(env, texts, actions, cur + 1, p, stack + [ctx]),
                       Rest(env, texts, actions, p + 1, opens, hi, stack))
  {
    assert cur < Bound(opens, hi);
    InsideBlock(actions, cur, opens, hi);
    RestPush(env, texts, actions, cur, opens, hi, stack, ctx);
  }

  lemma {:induction false} RestEnd<C>(env: Env<C>, texts: seq<string>, actions: seq<Action>, opens: seq<nat>, hi: nat,
                                      stack: seq<C>)
    requires |actions| == |texts| && Inside(actions, hi, opens, hi) && |opens| <= |stack|
    ensures opens == [] && Rest(env, texts, actions, hi, opens, hi, stack) == Out(texts[hi])
  {
    LevelEnd(env, texts, actions, hi, stack);
  }

  /** The interpreter is at `cur`, inside blocks that it has gone into from a stack
      `stack0`; with what it has put out and what is left, the total is right. */
  ghost predicate Ongoing<C>(env: Env<C>, texts: seq<string>, actions: seq<Action>, cur: nat, opens: seq<nat>, hi: nat,
                             stack0: seq<C>, stack: seq<C>, out: string, total: Outcome)
  {
    && |actions| == |texts| && Inside(actions, cur, opens, hi) && cur <= hi < |actions|
    && |stack| == |stack0| + |opens| && stack[..|stack0|] == stack0
    && Then(Out(out), Rest(env, texts, actions, cur, opens, hi, stack)) == total
  }

  lemma {:induction false} Begins<C>(env: Env<C>, texts: seq<string>, actions: seq<Action>, begin: nat, hi: nat,
                                     stack: seq<C>, out: string)
    requires begin <= hi < |actions| == |texts| && Balanced(actions, begin, hi)
    ensures Ongoing(env, texts, actions, begin, [], hi, stack, stack, out,
                    Then(Out(out), Level(env, texts, actions, begin, hi, stack)))
  {
  }

  lemma {:induction false} Ends<C>(env: Env<C>, texts: seq<string>, actions: seq<Action>, opens: seq<nat>, hi: nat,
                                   stack0: seq<C>, stack: seq<C>, out: string, total: Outcome)
    requires Ongoing(env, texts, actions, hi, opens, hi, stack0, stack, out, total)
    ensures stack == stack0 && total == Out(out + texts[hi])
  {
    RestEnd(env, texts, actions, opens, hi, stack);
  }

  /** Past a closing action. */
  lemma {:induction false} Closes<C>(env: Env<C>, texts: seq<string>, actions: seq<Action>, cur: nat, opens: seq<nat>,
                                     hi: nat, stack0: seq<C>, stack: seq<C>, out: string, total: Outcome)
    requires Ongoing(env, texts, actions, cur, opens, hi, stack0, stack, out, total) && cur < hi
    requires actions[cur].t == CloseBlock
    ensures opens != [] && stack != []
    ensures Ongoing(env, texts, actions, cur + 1, opens[..|opens| - 1], hi, stack0, stack[..|stack| - 1],
                    out + texts[cur], total)
  {
    Turn(env, texts, actions, cur, opens, hi, stack);
    hide Rest, Inside;
    ThenAssoc(Out(out), Out(texts[cur]), Rest(env, texts, actions, cur + 1, opens[..|opens| - 1], hi, stack[..|stack| - 1]));
  }

  /** Past another action, or over a block. */
  lemma {:induction false} Passes<C>(env: Env<C>, texts: seq<string>, actions: seq<Action>, cur: nat, opens: seq<nat>,
                                     hi: nat, stack0: seq<C>, stack: seq<C>, out: string, total: Outcome)
    requires Ongoing(env, texts, actions, cur, opens, hi, stack0, stack, out, total) && cur < hi
    requires actions[cur].t != CloseBlock
    ensures IsBlock(actions[cur]) ==>
              cur < actions[cur].pos < hi && Balanced(actions, cur + 1, actions[cur].pos)
    ensures var e := Effect(env, texts, actions, cur, stack);
            if e.Throws? then total.Throws?
            else Ongoing(env, texts, actions, Next(actions, cur), opens, hi, stack0, stack, out + texts[cur] + e.s, total)
  {
    Turn(env, texts, actions, cur, opens, hi, stack);
    InsideBound(actions, Next(actions, cur), opens, hi);
    hide Rest, Inside, Effect, Balanced;
    var e, rest := Effect(env, texts, actions, cur, stack), Rest(env, texts, actions, Next(actions, cur), opens, hi, stack);
    ThenAssoc(Out(out), Out(texts[cur]), Then(e, rest));
    ThenAssoc(Out(out + texts[cur]), e, rest);
  }

  /** Into a block. */
  lemma {:induction false} Enters<C>(env: Env<C>, texts: seq<string>, actions: seq<Action>, cur: nat, opens: seq<nat>,
                                     hi: nat, stack0: seq<C>, stack: seq<C>, out: string, total: Outcome, ctx: C)
    requires Ongoing(env, texts, actions, cur, opens, hi, stack0, stack, out, total) && cur < hi
    requires IsBlock(actions[cur]) && cur < actions[cur].pos < |actions|
    requires Effect(env, texts, actions, cur, stack) == Level(env, texts, actions, cur + 1, actions[cur].pos, stack + [ctx])
    ensures Ongoing(env, texts, actions, cur + 1, opens + [actions[cur].pos], hi, stack0, stack + [ctx],
                    out + texts[cur], total)
  {
    Turn(env, texts, actions, cur, opens, hi, stack);
    TurnInto(env, texts, actions, cur, opens, hi, stack, ctx);
    hide Rest, Inside, Effect, Level;
    ThenAssoc(Out(out), Out(texts[cur]),
              Then(Effect(env, texts, actions, cur, stack), Rest(env, texts, actions, Next(actions, cur), opens, hi, stack)));
  }

  lemma {:induction false} InsideBound(actions: seq<Action>, cur: nat, opens: seq<nat>, hi: nat)
    requires Inside(actions, cur, opens, hi)
    ensures cur <= hi
  {
  }

  /** Renders the actions from `begin` up to `end`, and the text behind them. An
      exception ends it all. */
  method RenderInternal<C>(env: Env<C>, texts: seq<string>, actions: seq<Action>, begin: nat, end: nat, r: Rendering<C>)
    returns (ok: bool)
    requires begin <= end < |actions| == |texts| && Balanced(actions, begin, end)
    modifies r
    ensures var m := Level(env, texts, actions, begin, end, old(r.stack));
            && ok == m.Out?
            && (ok ==> r.stack == old(r.stack) && r.out == old(r.out) + m.s)
    decreases end - begin, 0
  {
    hide Level, Balanced, ForEach, Ongoing;
    ghost var opens: seq<nat>, stack, m := [], r.stack, Level(env, texts, actions, begin, end, r.stack);
    ghost var total := Then(Out(r.out), m);
    Begins(env, texts, actions, begin, end, stack, r.out);
    var current := begin;
    while current < end
      invariant begin <= current <= end
      invariant Ongoing(env, texts, actions, current, opens, end, stack, r.stack, r.out, total)
      decreases end - current
    {
      var action := actions[current];
      ghost var before, out := r.stack, r.out;
      if action.t != CloseBlock {
        Passes(env, texts, actions, current, opens, end, stack, before, out, total);
      }
      r.out := r.out + texts[current];
      match action.t {
        case Ignore =>
          assert r.out + "" == r.out;
        case CloseBlock =>
          Closes(env, texts, actions, current, opens, end, stack, before, out, total);
          r.stack := r.stack[..|r.stack| - 1];
          opens := opens[..|opens| - 1];
        case ElseBlock =>
          if Skips(env.look(current, r.stack)) {
            assert r.out + "" == r.out;
            current := action.pos;
          } else {
            Enters(env, texts, actions, current, opens, end, stack, before, out, total, env.nothing);
            r.stack := r.stack + [env.nothing];
            opens := opens + [action.pos];
          }
        case OpenBlock =>
          match env.look(current, r.stack) {
            case NotFound =>
              assert r.out + "" == r.out;
              current := action.pos;
            case NullOrFalse =>
              assert r.out + "" == r.out;
              current := action.pos;
            case Single(ctx) =>
              Enters(env, texts, actions, current, opens, end, stack, before, out, total, ctx);
              r.stack := r.stack + [ctx];
              opens := opens + [action.pos];
            case Items(ctxs) =>
              ok := RenderEach(env, texts, actions, current, ctxs, r);
              if !ok {
                return;
              }
              current := action.pos;
            case Other => return false;
          }
        case _ =>
          match env.tag(current, r.stack) {
            case None => return false;
            case Some(s) => r.out := r.out + s;
          }
      }
      current := current + 1;
    }
    Ends(env, texts, actions, opens, end, stack, r.stack, r.out, total);
    Sum(old(r.out), m, r.out + texts[end]);
    r.out := r.out + texts[end];
    ok := true;
  }

  lemma Sum(out: string, m: Outcome, s: string)
    requires Then(Out(out), m) == Out(s)
    ensures m.Out? && s == out + m.s
  {
  }

  /** Renders the inside of a block once for each of the values. */
  method RenderEach<C>(env: Env<C>, texts: seq<string>, actions: seq<Action>, current: nat, ctxs: seq<C>, r: Rendering<C>)
    returns (ok: bool)
    requires current < |actions| == |texts| && current < actions[current].pos < |actions|
    requires Balanced(actions, current + 1, actions[current].pos)
    modifies r
    ensures var m := ForEach(env, KidsOf(texts, actions, current), ctxs, old(r.stack));
            && ok == m.Out?
            && (ok ==> r.stack == old(r.stack) && r.out == old(r.out) + m.s)
    decreases actions[current].pos - current, 1
  {
    ghost var kids, stack := KidsOf(texts, actions, current), r.stack;
    ghost var total := Then(Out(r.out), ForEach(env, kids, ctxs, stack));
    var i := 0;
    while i < |ctxs|
      invariant 0 <= i <= |ctxs| && r.stack == stack
      invariant Then(Out(r.out), ForEach(env, kids, ctxs[i..], stack)) == total
    {
      r.stack := r.stack + [ctxs[i]];
      ok := RenderInternal(env, texts, actions, current + 1, actions[current].pos, r);
      if !ok {
        return;
      }
      r.stack := r.stack[..|r.stack| - 1];
      i := i + 1;
    }
    ok := true;
  }
}
