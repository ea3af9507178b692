/** The assertions inside http_parser_execute: which hold over every run, and
    exactly when the one that does not hold fails. */
module HttpAsserts {
  import opened HttpTypes
  import opened HttpStep
  import opened HttpInvariant
  import opened HttpFold

  /** What http_parser_execute asserts while it handles byte `ch`, except that
      no callback has failed. */
  predicate AssertsHold(p: Parser, ch: Byte) {
    match p.state
    case S_HEADER_FIELD => Token(ch) == '\0' || NameHs(p.hs)
    case S_HEADER_VALUE => IsValueByte(p, ch) ==> p.hs != H_CONNECTION && p.hs != H_TRANSFER_ENCODING
    case S_CHUNK_SIZE_START => p.nread == 1 && p.flags.chunked
    case S_CHUNK_SIZE | S_CHUNK_PARAMETERS | S_CHUNK_SIZE_ALMOST_DONE | S_CHUNK_DATA_DONE => p.flags.chunked
    case S_CHUNK_DATA => p.flags.chunked && p.contentLength != 0 && p.contentLength != ULLONG_MAX
    case S_CHUNK_DATA_ALMOST_DONE => p.flags.chunked && p.contentLength == 0
    case S_BODY_IDENTITY => p.contentLength != 0 && p.contentLength != ULLONG_MAX
    case _ => S_DEAD <= p.state <= S_MESSAGE_DONE
  }

  /** All assertions hold at every byte, but one: a value byte arriving while
      the sub-state is still that of a Connection header name. */
  lemma AssertsHoldExactly(p: Parser, ch: Byte)
    requires Ready(p)
    ensures AssertsHold(p, ch) <==> !(p.state == S_HEADER_VALUE && p.hs == H_CONNECTION && IsValueByte(p, ch))
  {
    match p.state
    case S_HEADER_FIELD =>
    case S_HEADER_VALUE =>
    case S_CHUNK_DATA =>
    case S_BODY_IDENTITY =>
    case _ =>
  }

  /** A Connection value has begun and none of its bytes has been looked at. */
  predicate Latent(p: Parser) { InValue(p.state) && p.hs == H_CONNECTION }

  lemma ValueKeepsSubState(p: Parser, ch: Byte)
    requires p.state == S_HEADER_VALUE && p.hs != H_CONNECTION
    ensures OnHeaderValue(p, ch).hs != H_CONNECTION
  {
    hide IsHeaderChar;
    if ch == CR || ch == LF || !IsValueByte(p, ch) {
    } else {
      assert OnHeaderValue(p, ch) == ValueByte(p, ch);
    }
  }

  lemma OnlyNulInHeader(p: Parser, ch: Byte)
    requires !Latent(p) && p.state != S_HEADER_VALUE_DISCARD_WS
    requires S_HEADER_FIELD_START <= p.state <= S_HEADER_ALMOST_DONE && p.state != S_HEADER_VALUE_START
    ensures !Latent(OnHeader(p, ch))
  {
    match p.state
    case S_HEADER_FIELD => assert OnHeader(p, ch) == OnHeaderField(p, ch);
    case S_HEADER_VALUE => ValueKeepsSubState(p, ch);
    case S_HEADER_VALUE_LWS => assert OnHeader(p, ch) == OnValueLws(p, ch);
    case _ =>
  }

  lemma HeaderNext(p: Parser, ch: Byte)
    requires S_HEADER_FIELD_START <= p.state <= S_HEADER_ALMOST_DONE
    ensures Next(p, ch) == OnHeader(p, ch)
    ensures p.state == S_HEADER_VALUE_DISCARD_WS ==> Next(p, ch) == OnDiscardWs(p, ch)
  {
    hide OnDiscardWs;
  }

  lemma DiscardLatent(p: Parser, ch: Byte)
    requires p.state == S_HEADER_VALUE_DISCARD_WS && p.errno == CHPE_OK && OnDiscardWs(p, ch).errno == CHPE_OK
    ensures Latent(OnDiscardWs(p, ch)) <==> p.hs == H_CONNECTION && ch == '\0'
  {
  }

  lemma NotInValue(p: Parser, ch: Byte)
    requires !(S_HEADER_FIELD_START <= p.state <= S_HEADER_ALMOST_DONE)
    ensures !InValue(Next(p, ch).state)
  {
    hide OnRequestLine, OnFraming;
  }

  /** The only way into that situation is a NUL as the first byte of the value. */
  lemma OnlyNulIsLatent(p: Parser, ch: Byte)
    requires Ready(p) && !Latent(p) && Next(p, ch).errno == CHPE_OK
    ensures Latent(Next(p, ch))
            <==> p.state == S_HEADER_VALUE_DISCARD_WS && p.hs == H_CONNECTION && ch == '\0'
  {
    hide Next, OnDiscardWs, OnHeader;
    if S_HEADER_FIELD_START <= p.state <= S_HEADER_ALMOST_DONE {
      HeaderNext(p, ch);
    }
    if p.state == S_HEADER_VALUE_DISCARD_WS {
      DiscardLatent(p, ch);
    } else if S_HEADER_FIELD_START <= p.state <= S_HEADER_ALMOST_DONE {
      OnlyNulInHeader(p, ch);
    } else {
      NotInValue(p, ch);
    }
  }

  /** Over a whole run, input without a NUL byte never gets there: every
      assertion holds at every byte. */
  lemma {:induction false} NoNulNeverLatent(s: Run, data: seq<Byte>)
    requires Inv(s) && (s.p.errno == CHPE_OK ==> !Latent(s.p)) && '\0' !in data
    ensures var t := Fold(s, data);
            Inv(t) && (t.p.errno == CHPE_OK ==> !Latent(t.p))
  {
    FoldKeepsInv(s, data);
    if data != [] {
      hide Next, Events, StateInv, Latent, Inv;
      var init, ch := data[..|data| - 1], data[|data| - 1];
      NoNulNeverLatent(s, init);
      var t := Fold(s, init);
      if Accepted(t) && !t.stopped {
        StepStaysClear(t, ch);
      }
    }
  }

  lemma StepStaysClear(s: Run, ch: Byte)
    requires Inv(s) && Accepted(s) && !s.stopped && !Latent(s.p) && ch != '\0'
    ensures Step(s, ch).p.errno == CHPE_OK ==> !Latent(Step(s, ch).p)
  {
    hide Next, Events;
    CountedIsReady(s.p);
    if Counted(s.p).errno == CHPE_OK && Next(Counted(s.p), ch).errno == CHPE_OK {
      OnlyNulIsLatent(Counted(s.p), ch);
    }
  }

  lemma AssertsHoldWithoutNul(s: Run, data: seq<Byte>, ch: Byte)
    requires Inv(s) && (s.p.errno == CHPE_OK ==> !Latent(s.p)) && '\0' !in data
    ensures var t := Fold(s, data);
            Accepted(t) && !t.stopped && Counted(t.p).errno == CHPE_OK ==> AssertsHold(Counted(t.p), ch)
  {
    hide Next, Events, StateInv, AssertsHold, Ready;
    NoNulNeverLatent(s, data);
    var t := Fold(s, data);
    if Accepted(t) && !t.stopped {
      CountedIsReady(t.p);
      if Counted(t.p).errno == CHPE_OK {
        AssertsHoldExactly(Counted(t.p), ch);
      }
    }
  }

  // An input on which an assertion fails.

  const WITNESS: seq<Byte> := "GET /\nConnection:\0"

  lemma WitnessStep(i: nat, p: Parser, q: Parser)
    requires i < |WITNESS|
    requires var s := Fold(Fresh(INITIAL), WITNESS[..i]);
             Accepted(s) && !s.stopped && s.p == p
    requires p.nread < MAX_HEADER_SIZE && ParsingHeader(p.state)
    requires Next(p.(nread := p.nread + 1), WITNESS[i]) == q && q.errno == CHPE_OK && q.state != S_HEADERS_DONE
    ensures var t := Fold(Fresh(INITIAL), WITNESS[..i + 1]);
            Accepted(t) && !t.stopped && t.p == q
  {
    hide Next, Events, Fold;
    FoldNext(Fresh(INITIAL), WITNESS, i);
    assert Counted(p) == p.(nread := p.nread + 1);
  }

  const AT_PATH := INITIAL.(contentLength := ULLONG_MAX, mthd := M_GET, index := 4)

  lemma WitnessRequestLine()
    ensures var t := Fold(Fresh(INITIAL), WITNESS[..6]);
            Accepted(t) && !t.stopped
            && t.p == AT_PATH.(state := S_HEADER_FIELD_START, minor := 9, nread := 6)
  {
    hide Fold;
    FoldNone(Fresh(INITIAL));
    assert WITNESS[..0] == [];
    var m := INITIAL.(contentLength := ULLONG_MAX, mthd := M_GET, state := S_REQ_METHOD);
    WitnessStep(0, INITIAL, m.(index := 1, nread := 1));
    WitnessStep(1, m.(index := 1, nread := 1), m.(index := 2, nread := 2));
    WitnessStep(2, m.(index := 2, nread := 2), m.(index := 3, nread := 3));
    WitnessStep(3, m.(index := 3, nread := 3), AT_PATH.(state := S_REQ_SPACES_BEFORE_URL, nread := 4));
    WitnessStep(4, AT_PATH.(state := S_REQ_SPACES_BEFORE_URL, nread := 4), AT_PATH.(state := S_REQ_PATH, nread := 5));
    WitnessStep(5, AT_PATH.(state := S_REQ_PATH, nread := 5),
                AT_PATH.(state := S_HEADER_FIELD_START, minor := 9, nread := 6));
  }

  const IN_NAME := AT_PATH.(state := S_HEADER_FIELD, minor := 9)

  lemma WitnessName()
    ensures var t := Fold(Fresh(INITIAL), WITNESS[..16]);
            Accepted(t) && !t.stopped && t.p == IN_NAME.(hs := H_CONNECTION, index := 9, nread := 16)
  {
    hide Fold;
    WitnessRequestLine();
    WitnessStep(6, AT_PATH.(state := S_HEADER_FIELD_START, minor := 9, nread := 6),
                IN_NAME.(hs := H_C, index := 0, nread := 7));
    WitnessStep(7, IN_NAME.(hs := H_C, index := 0, nread := 7), IN_NAME.(hs := H_CO, index := 1, nread := 8));
    WitnessStep(8, IN_NAME.(hs := H_CO, index := 1, nread := 8), IN_NAME.(hs := H_CON, index := 2, nread := 9));
    var m := IN_NAME.(hs := H_MATCHING_CONNECTION);
    WitnessStep(9, IN_NAME.(hs := H_CON, index := 2, nread := 9), m.(index := 3, nread := 10));
    WitnessStep(10, m.(index := 3, nread := 10), m.(index := 4, nread := 11));
    WitnessStep(11, m.(index := 4, nread := 11), m.(index := 5, nread := 12));
    WitnessStep(12, m.(index := 5, nread := 12), m.(index := 6, nread := 13));
    WitnessStep(13, m.(index := 6, nread := 13), m.(index := 7, nread := 14));
    WitnessStep(14, m.(index := 7, nread := 14), m.(index := 8, nread := 15));
    WitnessStep(15, m.(index := 8, nread := 15), IN_NAME.(hs := H_CONNECTION, index := 9, nread := 16));
  }

  /** After "GET /", a line feed, "Connection:" and a NUL, the next byte finds
      the sub-state the source says cannot be there. */
  lemma AssertCanFail(ch: Byte)
    requires ch != CR && ch != LF && IsHeaderChar(ch)
    ensures var t := Fold(Fresh(INITIAL), WITNESS);
            Accepted(t) && !t.stopped && Counted(t.p).errno == CHPE_OK && !AssertsHold(Counted(t.p), ch)
  {
    hide Fold;
    WitnessName();
    var after := IN_NAME.(state := S_HEADER_VALUE_DISCARD_WS, hs := H_CONNECTION, index := 9, nread := 17);
    WitnessStep(16, IN_NAME.(hs := H_CONNECTION, index := 9, nread := 16), after);
    WitnessStep(17, after, after.(state := S_HEADER_VALUE, index := 0, nread := 18));
    assert WITNESS[..18] == WITNESS;
  }
}
