/** Laws of running the parser over a whole input, one byte at a time. */
module HttpFold {
  import opened HttpTypes
  import opened HttpStep
  import opened HttpInvariant

  /** Every byte was taken, and there may be more. */
  predicate Live(s: Run) { Accepted(s) && !s.stopped }

  /** Running over `a + b` is running over `a`, then over `b`. */
  lemma {:induction false} FoldConcat(s: Run, a: seq<Byte>, b: seq<Byte>)
    ensures Fold(s, a + b) == Fold(Fold(s, a), b)
  {
    hide Step;
    if b == [] {
      assert a + b == a;
    } else {
      var init := b[..|b| - 1];
      FoldConcat(s, a, init);
      assert (a + b)[..|a + b| - 1] == a + init;
    }
  }

  lemma FoldNone(s: Run)
    ensures Fold(s, []) == s
  {
  }

  lemma FoldOne(s: Run, ch: Byte)
    ensures Fold(s, [ch]) == Step(s, ch)
  {
    assert [ch][..0] == [];
  }

  /** The next byte of a longer input. */
  lemma FoldNext(s: Run, data: seq<Byte>, i: nat)
    requires i < |data|
    ensures Fold(s, data[..i + 1]) == Step(Fold(s, data[..i]), data[i])
  {
    assert data[..i + 1][..i] == data[..i];
  }

  lemma {:induction false} RefusedForGood(s: Run, data: seq<Byte>)
    requires !Accepted(s)
    ensures Fold(s, data) == s
  {
    if data != [] {
      RefusedForGood(s, data[..|data| - 1]);
    }
  }

  /** A refused prefix makes the whole input refused. */
  lemma RefusedPrefix(s: Run, data: seq<Byte>, i: nat)
    requires i <= |data| && !Accepted(Fold(s, data[..i]))
    ensures !Accepted(Fold(s, data))
  {
    FoldConcat(s, data[..i], data[i..]);
    RefusedForGood(Fold(s, data[..i]), data[i..]);
    assert data[..i] + data[i..] == data;
  }

  lemma {:induction false} EmitAllConcat(log: Log, a: seq<Event>, b: seq<Event>)
    ensures EmitAll(log, a + b) == EmitAll(EmitAll(log, a), b)
  {
    if b == [] {
      assert a + b == a;
    } else {
      var init := b[..|b| - 1];
      EmitAllConcat(log, a, init);
      assert (a + b)[..|a + b| - 1] == a + init;
    }
  }

  // Bodies: what a run of body bytes does all at once.

  /** The parser while it reads a body of known length. */
  predicate ReadingBody(s: Run) {
    && s.p.errno == CHPE_OK && !s.stopped && !s.overrun
    && (s.p.state == S_BODY_IDENTITY || s.p.state == S_CHUNK_DATA)
    && 0 < s.p.contentLength
  }

  function BodyDone(st: State): State {
    if st == S_CHUNK_DATA then S_CHUNK_DATA_ALMOST_DONE else S_MESSAGE_DONE
  }

  /** Reading exactly `xs` of the body; the last byte of an identity body
      completes the message. */
  function AfterBody(s: Run, xs: seq<Byte>): Run {
    var q := TakeBody(s.p, |xs|, BodyDone(s.p.state));
    var log := Emit(s.log, Data(Body, xs));
    s.(p := q, log := if q.state == S_MESSAGE_DONE then Emit(log, Notified(MessageComplete)) else log)
  }

  lemma BodyByte(s: Run, ch: Byte)
    requires ReadingBody(s)
    ensures Step(s, ch) == AfterBody(s, [ch])
  {
    EmitOne(s.log, Data(Body, [ch]));
    EmitTwo(s.log, Data(Body, [ch]), Notified(MessageComplete));
    assert Counted(s.p) == s.p;
    if s.p.state == S_BODY_IDENTITY {
      assert Next(s.p, ch) == OnBodyIdentity(s.p, ch);
    } else {
      assert Next(s.p, ch) == OnChunkData(s.p, ch);
    }
  }

  lemma {:induction false} FoldBody(s: Run, xs: seq<Byte>)
    requires ReadingBody(s) && 0 < |xs| <= s.p.contentLength
    ensures Fold(s, xs) == AfterBody(s, xs)
  {
    hide Step;
    var init, last := xs[..|xs| - 1], xs[|xs| - 1];
    if init == [] {
      assert xs == [last];
      BodyByte(s, last);
      FoldOne(s, last);
    } else {
      FoldBody(s, init);
      var mid := AfterBody(s, init);
      BodyByte(mid, last);
      EmitJoins(s.log, Body, init, [last]);
      assert init + [last] == xs;
    }
  }

  lemma EofByte(s: Run, ch: Byte)
    requires s.p.errno == CHPE_OK && !s.stopped && !s.overrun && s.p.state == S_BODY_IDENTITY_EOF
    ensures Step(s, ch) == s.(log := Emit(s.log, Data(Body, [ch])))
  {
    EmitOne(s.log, Data(Body, [ch]));
    assert Next(s.p, ch) == OnFraming(s.p, ch) == s.p;
  }

  /** A body that lasts until the connection closes. */
  lemma {:induction false} FoldUntilEof(s: Run, xs: seq<Byte>)
    requires s.p.errno == CHPE_OK && !s.stopped && !s.overrun && s.p.state == S_BODY_IDENTITY_EOF
    requires |xs| > 0
    ensures Fold(s, xs) == s.(log := Emit(s.log, Data(Body, xs)))
  {
    hide Step;
    var init, last := xs[..|xs| - 1], xs[|xs| - 1];
    if init == [] {
      assert xs == [last];
      FoldOne(s, last);
      EofByte(s, last);
    } else {
      var mid := s.(log := Emit(s.log, Data(Body, init)));
      FoldUntilEof(s, init);
      EmitJoins(s.log, Body, init, [last]);
      EofByte(mid, last);
      assert init + [last] == xs;
    }
  }
}
