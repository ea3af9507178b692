/** Header lines: exactly which are taken, what they leave in the parser, and that
    their names and values are delivered as they stand. */
module HttpLines {
  import opened HttpTypes
  import opened HttpStep
  import opened HttpInvariant
  import opened HttpFold
  import opened HttpNames

  // One byte.

  /** A run inside the head of a request: every byte counts towards its size. */
  predicate InHead(s: Run) {
    Live(s) && s.p.state <= S_HEADERS_ALMOST_DONE && s.p.nread <= MAX_HEADER_SIZE
  }

  lemma StepIs(s: Run, ch: Byte)
    requires InHead(s)
    ensures s.p.nread == MAX_HEADER_SIZE ==> !Accepted(Step(s, ch))
    ensures s.p.nread < MAX_HEADER_SIZE ==>
              var c := s.p.(nread := s.p.nread + 1);
              Step(s, ch) == Run(Next(c, ch), EmitAll(s.log, Events(c, ch)), Stops(c, ch), false)
  {
    hide Next, Events, Stops;
  }

  lemma NoStop(c: Parser, ch: Byte)
    requires Next(c, ch).state != S_HEADERS_DONE
    ensures !Stops(c, ch)
  {
    hide Next;
  }

  lemma EmitNone(log: Log)
    ensures EmitAll(log, []) == log
  {
  }

  /** The state that a byte between names and values leads to, if it is one. */
  function Sep(st: State, ch: Byte): Option<State> {
    if st == S_HEADER_FIELD && ch == ':' then Some(S_HEADER_VALUE_DISCARD_WS)
    else if st == S_HEADER_VALUE_DISCARD_WS && IsWs(ch) then Some(st)
    else if st == S_HEADER_VALUE_DISCARD_WS && ch == CR then Some(S_HEADER_VALUE_DISCARD_WS_ALMOST_DONE)
    else if st == S_HEADER_VALUE_DISCARD_WS && ch == LF then Some(S_HEADER_VALUE_DISCARD_LWS)
    else if st == S_HEADER_VALUE_DISCARD_WS_ALMOST_DONE && ch == LF then Some(S_HEADER_VALUE_DISCARD_LWS)
    else if st == S_HEADER_VALUE_DISCARD_LWS && IsWs(ch) then Some(S_HEADER_VALUE_DISCARD_WS)
    else if st == S_HEADER_VALUE && ch == CR then Some(S_HEADER_ALMOST_DONE)
    else if st == S_HEADER_VALUE && ch == LF then Some(S_HEADER_VALUE_LWS)
    else if st == S_HEADER_ALMOST_DONE && ch == LF then Some(S_HEADER_VALUE_LWS)
    else None
  }

  predicate IsWs(ch: Byte) { ch == ' ' || ch == '\t' }

  lemma SepNext(c: Parser, ch: Byte)
    requires Sep(c.state, ch).Some? && c.errno == CHPE_OK
    ensures Next(c, ch) == Go(c, Sep(c.state, ch).value) && Events(c, ch) == []
  {
    NoToken();
    hide HeaderFlags, ValueNext, FieldNext, Token;
    assert Next(c, ch) == OnHeader(c, ch);
  }

  lemma NoToken()
    ensures Token(' ') == Token('\t') == Token(CR) == Token(LF) == Token(':') == '\0'
  {
  }

  lemma SepByte(s: Run, ch: Byte)
    requires InHead(s) && Sep(s.p.state, ch).Some?
    ensures Accepted(Step(s, ch)) <==> s.p.nread < MAX_HEADER_SIZE
    ensures Accepted(Step(s, ch)) ==>
              Step(s, ch) == s.(p := s.p.(state := Sep(s.p.state, ch).value, nread := s.p.nread + 1))
  {
    StepIs(s, ch);
    if s.p.nread < MAX_HEADER_SIZE {
      var c := s.p.(nread := s.p.nread + 1);
      SepNext(c, ch);
      EmitNone(s.log);
      hide Next, Events, Stops, Step;
      NoStop(c, ch);
    }
  }

  /** A parser at the beginning of a header line. */
  predicate AtLine(st: State) {
    st == S_HEADER_FIELD_START || st == S_HEADER_VALUE_LWS || st == S_HEADER_VALUE_DISCARD_LWS
  }

  /** The line before is over: what it leaves in the flags, and its value if that
      was empty. */
  function Ended(p: Parser): Parser {
    if p.state == S_HEADER_VALUE_LWS then p.(flags := HeaderFlags(p.flags, p.hs)) else p
  }

  function EndedLog(s: Run): Log {
    if s.p.state == S_HEADER_VALUE_DISCARD_LWS then Emit(s.log, Data(HeaderValue, [])) else s.log
  }

  /** One byte of data. */
  lemma DataByte(s: Run, ch: Byte, q: Parser, kind: DataKind)
    requires InHead(s) && s.p.nread < MAX_HEADER_SIZE && q.state != S_HEADERS_DONE
    requires var c := s.p.(nread := s.p.nread + 1);
             Next(c, ch) == q && (q.errno == CHPE_OK ==> Events(c, ch) == [Data(kind, [ch])])
    ensures Accepted(Step(s, ch)) <==> q.errno == CHPE_OK
    ensures Accepted(Step(s, ch)) ==> Step(s, ch) == s.(p := q, log := Emit(s.log, Data(kind, [ch])))
  {
    StepIs(s, ch);
    EmitOne(s.log, Data(kind, [ch]));
    hide Next, Events, Stops, Step;
    NoStop(s.p.(nread := s.p.nread + 1), ch);
  }

  lemma NameFirst(s: Run, ch: Byte)
    requires InHead(s) && AtLine(s.p.state) && Token(ch) != '\0'
    ensures Accepted(Step(s, ch)) <==> s.p.nread < MAX_HEADER_SIZE
    ensures Accepted(Step(s, ch)) ==>
              Step(s, ch) == s.(p := Ended(s.p).(index := 0, state := S_HEADER_FIELD, hs := FirstHs(Token(ch)),
                                                 nread := s.p.nread + 1),
                                log := Emit(EndedLog(s), Data(HeaderField, [ch])))
  {
    StepIs(s, ch);
    if s.p.nread < MAX_HEADER_SIZE {
      var c := s.p.(nread := s.p.nread + 1);
      hide Next, Events, Stops, Step, HeaderFlags, FirstHs, Token, Emit, EmitAll;
      NameStarts(c, ch);
      NameLog(s, ch);
      NoStop(c, ch);
    }
  }

  lemma NameLog(s: Run, ch: Byte)
    ensures EmitAll(s.log, NameEvents(s.p.state, ch)) == Emit(EndedLog(s), Data(HeaderField, [ch]))
  {
    EmitOne(s.log, Data(HeaderField, [ch]));
    EmitTwo(s.log, Data(HeaderValue, []), Data(HeaderField, [ch]));
  }

  function NameEvents(st: State, ch: Byte): seq<Event> {
    if st == S_HEADER_VALUE_DISCARD_LWS then [Data(HeaderValue, []), Data(HeaderField, [ch])] else [Data(HeaderField, [ch])]
  }

  lemma NameStarts(c: Parser, ch: Byte)
    requires AtLine(c.state) && Token(ch) != '\0' && c.errno == CHPE_OK
    ensures Next(c, ch) == Ended(c).(index := 0, state := S_HEADER_FIELD, hs := FirstHs(Token(ch)))
    ensures Events(c, ch) == NameEvents(c.state, ch)
  {
    NoToken();
    hide Token, HeaderFlags, FirstHs;
    assert Next(c, ch) == OnHeader(c, ch);
  }

  lemma NameMore(s: Run, ch: Byte)
    requires InHead(s) && s.p.state == S_HEADER_FIELD && Token(ch) != '\0'
    ensures Accepted(Step(s, ch)) <==> s.p.nread < MAX_HEADER_SIZE
    ensures Accepted(Step(s, ch)) ==>
              Step(s, ch) == s.(p := FieldByte(s.p, ch, Token(ch)).(nread := s.p.nread + 1),
                                log := Emit(s.log, Data(HeaderField, [ch])))
  {
    StepIs(s, ch);
    if s.p.nread < MAX_HEADER_SIZE {
      var c := s.p.(nread := s.p.nread + 1);
      hide Token, FieldNext, Step, Emit;
      assert Next(c, ch) == OnHeader(c, ch) == OnHeaderField(c, ch);
      assert Events(c, ch) == HeaderEvents(c, ch);
      hide Next, Events, Stops;
      DataByte(s, ch, FieldByte(c, ch, Token(ch)), HeaderField);
    }
  }

  lemma ValueFirst(s: Run, ch: Byte)
    requires InHead(s) && s.p.state == S_HEADER_VALUE_DISCARD_WS && !IsWs(ch) && ch != CR && ch != LF
    ensures Accepted(Step(s, ch)) <==> s.p.nread < MAX_HEADER_SIZE && OnValueStart(s.p, ch).errno == CHPE_OK
    ensures Accepted(Step(s, ch)) ==>
              Step(s, ch) == s.(p := OnValueStart(s.p, ch).(nread := s.p.nread + 1),
                                log := Emit(s.log, Data(HeaderValue, [ch])))
  {
    StepIs(s, ch);
    if s.p.nread < MAX_HEADER_SIZE {
      var c := s.p.(nread := s.p.nread + 1);
      ValueStarts(c, ch);
      StartNotCounted(s.p, c.nread, ch);
      hide Next, Events, Stops, OnValueStart, FoldLine, Step, Emit;
      DataByte(s, ch, OnValueStart(c, ch), HeaderValue);
    }
  }

  lemma ValueStarts(c: Parser, ch: Byte)
    requires c.errno == CHPE_OK
    requires (c.state == S_HEADER_VALUE_DISCARD_WS && !IsWs(ch) && ch != CR && ch != LF)
             || (c.state == S_HEADER_VALUE_LWS && IsWs(ch))
    ensures var from := if c.state == S_HEADER_VALUE_LWS then FoldLine(c) else c;
            && Next(c, ch) == OnValueStart(from, ch)
            && (Next(c, ch).errno == CHPE_OK ==> Events(c, ch) == [Data(HeaderValue, [ch])])
  {
    hide ValueStartHs;
    assert Next(c, ch) == OnHeader(c, ch);
    assert Events(c, ch) == HeaderEvents(c, ch);
  }

  /** The size count does not matter to a value. */
  lemma StartNotCounted(p: Parser, n: nat, ch: Byte)
    ensures OnValueStart(p.(nread := n), ch) == OnValueStart(p, ch).(nread := n)
    ensures OnValueStart(p, ch).state == S_HEADER_VALUE && FoldLine(p.(nread := n)) == FoldLine(p).(nread := n)
  {
    hide ValueStartHs;
  }

  lemma ValueGoesOn(c: Parser, ch: Byte)
    requires c.errno == CHPE_OK && c.state == S_HEADER_VALUE && ch != CR && ch != LF
    ensures Next(c, ch) == OnHeaderValue(c, ch)
    ensures OnHeaderValue(c, ch).errno == CHPE_OK ==> Events(c, ch) == [Data(HeaderValue, [ch])]
  {
    hide ValueByte, IsHeaderChar;
    assert Next(c, ch) == OnHeader(c, ch) == OnHeaderValue(c, ch);
    assert Events(c, ch) == HeaderEvents(c, ch);
  }

  lemma FoldFirst(s: Run, ch: Byte)
    requires InHead(s) && s.p.state == S_HEADER_VALUE_LWS && IsWs(ch)
    ensures Accepted(Step(s, ch)) <==> s.p.nread < MAX_HEADER_SIZE && OnValueStart(FoldLine(s.p), ch).errno == CHPE_OK
    ensures Accepted(Step(s, ch)) ==>
              Step(s, ch) == s.(p := OnValueStart(FoldLine(s.p), ch).(nread := s.p.nread + 1),
                                log := Emit(s.log, Data(HeaderValue, [ch])))
  {
    StepIs(s, ch);
    if s.p.nread < MAX_HEADER_SIZE {
      var c := s.p.(nread := s.p.nread + 1);
      ValueStarts(c, ch);
      StartNotCounted(s.p, c.nread, ch);
      StartNotCounted(FoldLine(s.p), c.nread, ch);
      hide Next, Events, Stops, OnValueStart, FoldLine, Step, Emit;
      DataByte(s, ch, OnValueStart(FoldLine(c), ch), HeaderValue);
    }
  }

  lemma ValueMore(s: Run, ch: Byte)
    requires InHead(s) && s.p.state == S_HEADER_VALUE && ch != CR && ch != LF
    ensures Accepted(Step(s, ch))
            <==> s.p.nread < MAX_HEADER_SIZE && IsValueByte(s.p, ch) && ValueByte(s.p, ch).errno == CHPE_OK
    ensures Accepted(Step(s, ch)) ==>
              Step(s, ch) == s.(p := ValueByte(s.p, ch).(nread := s.p.nread + 1),
                                log := Emit(s.log, Data(HeaderValue, [ch])))
  {
    StepIs(s, ch);
    if s.p.nread < MAX_HEADER_SIZE {
      var c := s.p.(nread := s.p.nread + 1);
      ValueGoesOn(c, ch);
      ByteNotCounted(s.p, c.nread, ch);
      hide Next, Events, Stops, Step, Emit, IsHeaderChar, ValueByte;
      DataByte(s, ch, OnHeaderValue(c, ch), HeaderValue);
    }
  }

  // Names, values and what stands between them.

  lemma Last(s: Run, a: seq<Byte>, ch: Byte)
    ensures Fold(s, a + [ch]) == Step(Fold(s, a), ch)
    ensures Accepted(Fold(s, a + [ch])) ==> Accepted(Fold(s, a))
  {
    Prefix(s, a, [ch]);
    FoldOne(Fold(s, a), ch);
  }

  lemma Prefix(s: Run, a: seq<Byte>, b: seq<Byte>)
    ensures Fold(s, a + b) == Fold(Fold(s, a), b)
    ensures Accepted(Fold(s, a + b)) ==> Accepted(Fold(s, a))
  {
    hide Step;
    FoldConcat(s, a, b);
    if !Accepted(Fold(s, a)) {
      RefusedForGood(Fold(s, a), b);
    }
  }

  function SepWalk(st: State, xs: seq<Byte>): Option<State> {
    if xs == [] then Some(st)
    else
      match SepWalk(st, xs[..|xs| - 1])
      case None => None
      case Some(mid) => Sep(mid, xs[|xs| - 1])
  }

  /** What stands between names and values changes nothing but the state. */
  lemma {:induction false} SepsAreRead(s: Run, xs: seq<Byte>)
    requires InHead(s) && SepWalk(s.p.state, xs).Some?
    ensures Accepted(Fold(s, xs)) <==> s.p.nread + |xs| <= MAX_HEADER_SIZE
    ensures Accepted(Fold(s, xs)) ==>
              Fold(s, xs) == s.(p := s.p.(state := SepWalk(s.p.state, xs).value, nread := s.p.nread + |xs|))
  {
    hide Step, Fold, Sep;
    if xs == [] {
      FoldNone(s);
    } else {
      var init, last := xs[..|xs| - 1], xs[|xs| - 1];
      SepsAreRead(s, init);
      assert init + [last] == xs;
      Last(s, init, last);
      SepStays(SepWalk(s.p.state, init).value, last);
      if Accepted(Fold(s, init)) {
        SepByte(Fold(s, init), last);
      }
    }
  }

  lemma SepStays(st: State, ch: Byte)
    ensures Sep(st, ch).Some? ==> st <= S_HEADERS_ALMOST_DONE
  {
  }

  /** What a name leaves in the parser. */
  function NameRead(p: Parser, name: seq<Byte>): Parser
    requires name != []
  {
    var m := Matched(Low(name));
    Ended(p).(hs := m.hs, index := m.index, state := S_HEADER_FIELD, nread := p.nread + |name|,
              usesTE := p.usesTE || LikeTransferEncoding(name))
  }

  /** A name is taken if it fits into the head, and is delivered as it stands. */
  lemma {:induction false} NameIsRead(s: Run, name: seq<Byte>)
    requires InHead(s) && AtLine(s.p.state) && name != [] && Tokens(name)
    ensures Accepted(Fold(s, name)) <==> s.p.nread + |name| <= MAX_HEADER_SIZE
    ensures Accepted(Fold(s, name)) ==>
              Fold(s, name) == s.(p := NameRead(s.p, name), log := Emit(EndedLog(s), Data(HeaderField, name)))
  {
    hide Step, Fold, Token, Matched, Ended, FirstHs;
    var init, last := name[..|name| - 1], name[|name| - 1];
    if init == [] {
      assert name == [last];
      FoldOne(s, last);
      NameFirst(s, last);
      OneLetter(s.p, last);
    } else {
      NameIsRead(s, init);
      assert init + [last] == name;
      Last(s, init, last);
      if Accepted(Fold(s, init)) {
        NameMore(Fold(s, init), last);
        MoreLetters(s.p, init, last);
        EmitJoins(EndedLog(s), HeaderField, init, [last]);
      }
    }
  }

  lemma OneLetter(p: Parser, ch: Byte)
    ensures NameRead(p, [ch])
            == Ended(p).(index := 0, state := S_HEADER_FIELD, hs := FirstHs(Token(ch)), nread := p.nread + 1)
  {
    hide HeaderFlags, FirstHs, FieldNext;
    assert Low([ch]) == [Token(ch)];
    assert |TRANSFER_ENCODING| == 17 && !LikeTransferEncoding([ch]);
  }

  lemma {:induction false} MoreLetters(p: Parser, init: seq<Byte>, ch: Byte)
    requires init != [] && Tokens(init + [ch])
    ensures NameRead(p, init + [ch])
            == FieldByte(NameRead(p, init), ch, Token(ch)).(nread := p.nread + |init| + 1)
  {
    TokensBefore(init, ch);
    LowMore(init, ch);
    MatchedMore(Low(init), Token(ch), ch);
    LikeMore(init, ch);
    hide Ended, FieldNext, LikeTransferEncoding, Low, Token, Matched;
  }

  /** The fields after the bytes of a value, or of a line that continues one. */
  function Valued(p: Parser, xs: seq<Byte>): Parser
    requires xs != []
  {
    if |xs| == 1 then OnValueStart(p, xs[0])
    else
      var q := Valued(p, xs[..|xs| - 1]);
      if q.errno != CHPE_OK then q else ValueByte(q, xs[|xs| - 1])
  }

  /** The bytes behind the first one that a value may have. */
  predicate Printable(p: Parser, xs: seq<Byte>) { p.lenient || forall k :: 1 <= k < |xs| ==> IsHeaderChar(xs[k]) }

  predicate NoLineEnd(xs: seq<Byte>) { forall k :: 0 <= k < |xs| ==> xs[k] != CR && xs[k] != LF }

  lemma {:induction false} ValuedStays(p: Parser, n: nat, xs: seq<Byte>)
    requires xs != []
    ensures Valued(p.(nread := n), xs) == Valued(p, xs).(nread := n)
    ensures Valued(p, xs).state == S_HEADER_VALUE && Valued(p, xs).lenient == p.lenient && Valued(p, xs).nread == p.nread
  {
    hide OnValueStart, ValueByte;
    if |xs| == 1 {
      StartNotCounted(p, n, xs[0]);
      Leniency(p, xs[0]);
    } else {
      var init, last := xs[..|xs| - 1], xs[|xs| - 1];
      ValuedStays(p, n, init);
      ByteNotCounted(Valued(p, init), n, last);
      Leniency(Valued(p, init), last);
    }
  }

  lemma Leniency(p: Parser, ch: Byte)
    ensures OnValueStart(p, ch).lenient == p.lenient && OnValueStart(p, ch).nread == p.nread
    ensures ValueByte(p, ch).lenient == p.lenient && ValueByte(p, ch).nread == p.nread
  {
    hide ValueStartHs, ValueNext, LengthDigit;
  }

  /** Where a value, or a line that continues one, can start; and from what. */
  predicate StartsValue(st: State, ch: Byte) {
    || (st == S_HEADER_VALUE_DISCARD_WS && !IsWs(ch) && ch != CR && ch != LF)
    || (st == S_HEADER_VALUE_LWS && IsWs(ch))
  }

  function From(p: Parser): Parser { if p.state == S_HEADER_VALUE_LWS then FoldLine(p) else p }

  /** A value is delivered as it stands, if each of its bytes is taken. */
  lemma {:induction false} ValueIsRead(s: Run, xs: seq<Byte>)
    requires InHead(s) && xs != [] && StartsValue(s.p.state, xs[0]) && NoLineEnd(xs)
    ensures Accepted(Fold(s, xs))
            <==> s.p.nread + |xs| <= MAX_HEADER_SIZE && Printable(s.p, xs) && Valued(From(s.p), xs).errno == CHPE_OK
    ensures Accepted(Fold(s, xs)) ==>
              Fold(s, xs) == s.(p := Valued(From(s.p), xs).(nread := s.p.nread + |xs|), log := Emit(s.log, Data(HeaderValue, xs)))
  {
    hide Step, Fold, OnValueStart, ValueByte, IsHeaderChar;
    var init, last := xs[..|xs| - 1], xs[|xs| - 1];
    if init == [] {
      assert xs == [last];
      FoldOne(s, last);
      if s.p.state == S_HEADER_VALUE_LWS {
        FoldFirst(s, last);
      } else {
        ValueFirst(s, last);
      }
    } else {
      ValueIsRead(s, init);
      assert init + [last] == xs;
      Last(s, init, last);
      PrintableMore(s.p, init, last);
      ValuedStays(From(s.p), s.p.nread + |init|, init);
      if Accepted(Fold(s, init)) {
        ValueMore(Fold(s, init), last);
        ByteNotCounted(Valued(From(s.p), init), s.p.nread + |init|, last);
        EmitJoins(s.log, HeaderValue, init, [last]);
      }
    }
  }

  lemma PrintableMore(p: Parser, xs: seq<Byte>, ch: Byte)
    requires xs != []
    ensures Printable(p, xs + [ch]) <==> Printable(p, xs) && (p.lenient || IsHeaderChar(ch))
  {
    hide IsHeaderChar;
    assert (xs + [ch])[|xs|] == ch;
    assert forall k :: 0 <= k < |xs| ==> (xs + [ch])[k] == xs[k];
  }

  // Lines.

  /** A line that continues a value: it begins with white space. */
  datatype Continued = Continued(eol: seq<Byte>, text: seq<Byte>)

  /** A header line, with what stands between its name and its value, the lines
      that continue the value, and its line end. */
  datatype Line = Line(name: seq<Byte>, gap: seq<Byte>, value: seq<Byte>, more: seq<Continued>, eol: seq<Byte>)

  predicate ContinuedOk(c: Continued) {
    && SepWalk(S_HEADER_VALUE, c.eol) == Some(S_HEADER_VALUE_LWS)
    && c.text != [] && IsWs(c.text[0]) && NoLineEnd(c.text)
  }

  predicate LineOk(l: Line) {
    && l.name != [] && Tokens(l.name)
    && if l.value == [] then l.more == [] && SepWalk(S_HEADER_VALUE_DISCARD_WS, l.gap + l.eol) == Some(S_HEADER_VALUE_DISCARD_LWS)
       else
         && SepWalk(S_HEADER_VALUE_DISCARD_WS, l.gap) == Some(S_HEADER_VALUE_DISCARD_WS)
         && !IsWs(l.value[0]) && NoLineEnd(l.value) && (forall k :: 0 <= k < |l.more| ==> ContinuedOk(l.more[k]))
         && SepWalk(S_HEADER_VALUE, l.eol) == Some(S_HEADER_VALUE_LWS)
  }

  function MoreText(more: seq<Continued>): seq<Byte> {
    if more == [] then [] else MoreText(more[..|more| - 1]) + (more[|more| - 1].eol + more[|more| - 1].text)
  }

  function MoreValue(more: seq<Continued>): seq<Byte> {
    if more == [] then [] else MoreValue(more[..|more| - 1]) + more[|more| - 1].text
  }

  function LineText(l: Line): seq<Byte> {
    l.name + ([':'] + (if l.value == [] then l.gap + l.eol else l.gap + (l.value + (MoreText(l.more) + l.eol))))
  }

  /** The value of a line, without the line ends in it. */
  function Value(l: Line): seq<Byte> { l.value + MoreValue(l.more) }

  /** The fields after the lines that continue a value. */
  function MoreRead(p: Parser, more: seq<Continued>): Parser
    requires forall k :: 0 <= k < |more| ==> ContinuedOk(more[k])
  {
    if more == [] then p
    else
      var q := MoreRead(p, more[..|more| - 1]);
      assert ContinuedOk(more[|more| - 1]);
      if q.errno != CHPE_OK then q else Valued(FoldLine(q), more[|more| - 1].text)
  }

  lemma {:induction false} MoreStays(p: Parser, more: seq<Continued>)
    requires p.state == S_HEADER_VALUE && forall k :: 0 <= k < |more| ==> ContinuedOk(more[k])
    ensures MoreRead(p, more).state == S_HEADER_VALUE && MoreRead(p, more).lenient == p.lenient
    ensures MoreRead(p, more).nread == p.nread
  {
    hide Valued, ContinuedOk;
    if more != [] {
      MoreStays(p, more[..|more| - 1]);
      assert ContinuedOk(more[|more| - 1]);
      var q, text := FoldLine(MoreRead(p, more[..|more| - 1])), more[|more| - 1].text;
      NotEmpty(more[|more| - 1]);
      ValuedStays(q, 0, text);
    }
  }

  lemma NotEmpty(c: Continued)
    requires ContinuedOk(c)
    ensures c.text != []
  {
  }

  /** Which bytes of continued lines are taken. */
  predicate MoreTaken(p: Parser, more: seq<Continued>)
    requires forall k :: 0 <= k < |more| ==> ContinuedOk(more[k])
  {
    (forall k :: 0 <= k < |more| ==> Printable(p, more[k].text)) && MoreRead(p, more).errno == CHPE_OK
  }

  lemma ContinuedIsRead(s: Run, c: Continued)
    requires InHead(s) && s.p.state == S_HEADER_VALUE && ContinuedOk(c)
    ensures var t := Fold(s, c.eol + c.text);
            && (Accepted(t) <==> s.p.nread + |c.eol + c.text| <= MAX_HEADER_SIZE && Printable(s.p, c.text)
                                 && Valued(FoldLine(s.p), c.text).errno == CHPE_OK)
            && (Accepted(t) ==>
                  t == s.(p := Valued(FoldLine(s.p), c.text).(nread := s.p.nread + |c.eol + c.text|),
                          log := Emit(s.log, Data(HeaderValue, c.text))))
  {
    hide Fold, Valued, Printable;
    Prefix(s, c.eol, c.text);
    SepsAreRead(s, c.eol);
    if Accepted(Fold(s, c.eol)) {
      var u := Fold(s, c.eol);
      ValueIsRead(u, c.text);
      SamePrintable(u.p, s.p, c.text);
      ValuedStays(FoldLine(s.p), u.p.nread, c.text);
      assert FoldLine(u.p) == FoldLine(s.p).(nread := u.p.nread);
    }
  }

  lemma SamePrintable(p: Parser, q: Parser, xs: seq<Byte>)
    requires p.lenient == q.lenient
    ensures Printable(p, xs) == Printable(q, xs)
  {
  }

  lemma NoMore(p: Parser)
    ensures MoreText([]) == [] && MoreValue([]) == [] && MoreRead(p, []) == p
    ensures MoreTaken(p, []) <==> p.errno == CHPE_OK
  {
  }

  lemma OneMore(p: Parser, more: seq<Continued>)
    requires more != [] && forall k :: 0 <= k < |more| ==> ContinuedOk(more[k])
    ensures var init, last := more[..|more| - 1], more[|more| - 1];
            && ContinuedOk(last)
            && MoreText(more) == MoreText(init) + (last.eol + last.text)
            && MoreValue(more) == MoreValue(init) + last.text
            && (MoreRead(p, init).errno == CHPE_OK ==>
                  (NotEmpty(last); MoreRead(p, more) == Valued(FoldLine(MoreRead(p, init)), last.text)))
            && (MoreTaken(p, more)
                <==> MoreTaken(p, init) && Printable(p, last.text) && MoreRead(p, more).errno == CHPE_OK)
            && (MoreTaken(p, init) ==> MoreRead(p, init).errno == CHPE_OK)
  {
    hide Valued, ContinuedOk, Printable;
    var init, last := more[..|more| - 1], more[|more| - 1];
    NotEmpty(last);
    assert MoreTaken(p, init) ==> forall k :: 0 <= k < |init| ==> Printable(p, init[k].text);
    assert forall k :: 0 <= k < |init| ==> init[k] == more[k];
  }

  lemma {:induction false} MoreIsRead(s: Run, more: seq<Continued>)
    requires InHead(s) && s.p.state == S_HEADER_VALUE && EndsIn(s.log, HeaderValue)
    requires forall k :: 0 <= k < |more| ==> ContinuedOk(more[k])
    ensures var t := Fold(s, MoreText(more));
            && (Accepted(t) <==> s.p.nread + |MoreText(more)| <= MAX_HEADER_SIZE && MoreTaken(s.p, more))
            && (Accepted(t) ==>
                  t == s.(p := MoreRead(s.p, more).(nread := s.p.nread + |MoreText(more)|),
                          log := Emit(s.log, Data(HeaderValue, MoreValue(more)))))
  {
    hide Step, Fold, Valued, ContinuedOk, Printable, MoreTaken, MoreRead, MoreText, MoreValue, Emit;
    if more == [] {
      NoMore(s.p);
      FoldNone(s);
      EmitNothing(s.log, HeaderValue);
    } else {
      var init, last := more[..|more| - 1], more[|more| - 1];
      OneMore(s.p, more);
      MoreIsRead(s, init);
      Prefix(s, MoreText(init), last.eol + last.text);
      MoreStays(s.p, init);
      var u := Fold(s, MoreText(init));
      if Accepted(u) {
        ContinuedIsRead(u, last);
        SamePrintable(u.p, s.p, last.text);
        NotEmpty(last);
        ValuedStays(FoldLine(MoreRead(s.p, init)), u.p.nread, last.text);
        assert FoldLine(u.p) == FoldLine(MoreRead(s.p, init)).(nread := u.p.nread);
        EmitJoins(s.log, HeaderValue, MoreValue(init), last.text);
      }
    }
  }

  /** The fields after the name of a line, and after the first piece of its value. */
  function Begun(p: Parser, l: Line): Parser
    requires LineOk(l)
  {
    NameRead(p, l.name).(state := S_HEADER_VALUE_DISCARD_WS, nread := p.nread)
  }

  function Started(p: Parser, l: Line): Parser
    requires LineOk(l) && l.value != []
  {
    Valued(Begun(p, l), l.value)
  }

  /** The fields after a whole line. */
  function LineRead(p: Parser, l: Line): Parser
    requires LineOk(l)
  {
    var q := if l.value == [] then Begun(p, l).(state := S_HEADER_VALUE_DISCARD_LWS)
             else MoreRead(Started(p, l), l.more).(state := S_HEADER_VALUE_LWS);
    q.(nread := p.nread + |LineText(l)|)
  }

  /** The value of a line is one that its name may have. */
  predicate LineTaken(p: Parser, l: Line)
    requires LineOk(l)
  {
    l.value == []
    || (Printable(p, l.value) && Started(p, l).errno == CHPE_OK && MoreTaken(Started(p, l), l.more))
  }

  /** The callbacks of a line; those of an empty value come with the next line. */
  function LineLog(s: Run, l: Line): Log {
    var log := Emit(EndedLog(s), Data(HeaderField, l.name));
    if l.value == [] then log else Emit(log, Data(HeaderValue, Value(l)))
  }

  lemma {:induction false} SepConcat(st: State, a: seq<Byte>, b: seq<Byte>)
    requires SepWalk(st, a).Some?
    ensures SepWalk(st, a + b) == SepWalk(SepWalk(st, a).value, b)
  {
    if b == [] {
      assert a + b == a;
    } else {
      SepConcat(st, a, b[..|b| - 1]);
      assert (a + b)[..|a + b| - 1] == a + b[..|b| - 1];
    }
  }

  lemma SepOne(st: State, ch: Byte)
    ensures SepWalk(st, [ch]) == Sep(st, ch)
  {
    assert [ch][..0] == [];
  }

  /** The name and what stands behind it. */
  lemma NamePart(s: Run, name: seq<Byte>, rest: seq<Byte>, st: State)
    requires InHead(s) && AtLine(s.p.state) && name != [] && Tokens(name)
    requires SepWalk(S_HEADER_VALUE_DISCARD_WS, rest) == Some(st)
    ensures var t, n := Fold(s, name + ([':'] + rest)), s.p.nread + |name + ([':'] + rest)|;
            && (Accepted(t) <==> n <= MAX_HEADER_SIZE)
            && (Accepted(t) ==>
                  t == s.(p := NameRead(s.p, name).(state := st, nread := n),
                          log := Emit(EndedLog(s), Data(HeaderField, name))))
  {
    hide Step, Fold, Sep;
    Prefix(s, name, [':'] + rest);
    NameIsRead(s, name);
    SepOne(S_HEADER_FIELD, ':');
    ColonSeparates();
    SepConcat(S_HEADER_FIELD, [':'], rest);
    hide SepWalk, NameRead, EndedLog;
    if Accepted(Fold(s, name)) {
      NameState(s.p, name);
      SepsAreRead(Fold(s, name), [':'] + rest);
    }
  }

  lemma NameState(p: Parser, name: seq<Byte>)
    requires name != []
    ensures NameRead(p, name).state == S_HEADER_FIELD && NameRead(p, name).nread == p.nread + |name|
    ensures NameRead(p, name).errno == p.errno && NameRead(p, name).lenient == p.lenient
  {
    hide HeaderFlags;
  }

  lemma ColonSeparates()
    ensures Sep(S_HEADER_FIELD, ':') == Some(S_HEADER_VALUE_DISCARD_WS)
  {
  }

  /** The value with the lines that continue it, and the line end. */
  /** The lines that continue a value, and the line end behind it. */
  lemma MorePart(s: Run, more: seq<Continued>, eol: seq<Byte>)
    requires InHead(s) && s.p.state == S_HEADER_VALUE && EndsIn(s.log, HeaderValue)
    requires forall k :: 0 <= k < |more| ==> ContinuedOk(more[k])
    requires SepWalk(S_HEADER_VALUE, eol) == Some(S_HEADER_VALUE_LWS)
    ensures var t, n := Fold(s, MoreText(more) + eol), s.p.nread + |MoreText(more) + eol|;
            && (Accepted(t) <==> n <= MAX_HEADER_SIZE && MoreTaken(s.p, more))
            && (Accepted(t) ==>
                  t == s.(p := MoreRead(s.p, more).(state := S_HEADER_VALUE_LWS, nread := n),
                          log := Emit(s.log, Data(HeaderValue, MoreValue(more)))))
  {
    hide Step, Fold, Sep, SepWalk, Valued, Printable, ContinuedOk, MoreTaken, MoreRead, MoreText, MoreValue, Emit;
    Prefix(s, MoreText(more), eol);
    MoreIsRead(s, more);
    MoreStays(s.p, more);
    var b := Fold(s, MoreText(more));
    if Accepted(b) {
      MoreEndsWell(s.p, more);
      SepsAreRead(b, eol);
    }
  }

  lemma MoreEndsWell(p: Parser, more: seq<Continued>)
    requires forall k :: 0 <= k < |more| ==> ContinuedOk(more[k])
    ensures MoreTaken(p, more) ==> MoreRead(p, more).errno == CHPE_OK
  {
  }

  lemma MoreOk(l: Line)
    requires LineOk(l) && l.value != []
    ensures forall k :: 0 <= k < |l.more| ==> ContinuedOk(l.more[k])
    ensures SepWalk(S_HEADER_VALUE, l.eol) == Some(S_HEADER_VALUE_LWS)
    ensures !IsWs(l.value[0]) && NoLineEnd(l.value)
  {
  }

  lemma ValuePart(s: Run, l: Line)
    requires InHead(s) && s.p.state == S_HEADER_VALUE_DISCARD_WS && LineOk(l) && l.value != []
    ensures var xs := l.value + (MoreText(l.more) + l.eol);
            var t, v := Fold(s, xs), Valued(s.p, l.value);
            && (Accepted(t) <==> s.p.nread + |xs| <= MAX_HEADER_SIZE && Printable(s.p, l.value) && v.errno == CHPE_OK
                                 && MoreTaken(v, l.more))
            && (Accepted(t) ==>
                  t == s.(p := MoreRead(v, l.more).(state := S_HEADER_VALUE_LWS, nread := s.p.nread + |xs|),
                          log := Emit(s.log, Data(HeaderValue, Value(l)))))
  {
    hide Step, Fold, Sep, SepWalk, Valued, Printable, ContinuedOk, MoreTaken, MoreRead, MoreText, MoreValue, Emit, LineOk;
    var v := Valued(s.p, l.value);
    MoreOk(l);
    Prefix(s, l.value, MoreText(l.more) + l.eol);
    ValueIsRead(s, l.value);
    ValuedStays(s.p, 0, l.value);
    var a := Fold(s, l.value);
    if Accepted(a) {
      EmitEnds(s.log, HeaderValue, l.value);
      MorePart(a, l.more, l.eol);
      MoreNotCounted(v, a.p.nread, l.more);
      EmitJoins(s.log, HeaderValue, l.value, MoreValue(l.more));
    }
  }

  lemma {:induction false} MoreNotCounted(p: Parser, n: nat, more: seq<Continued>)
    requires forall k :: 0 <= k < |more| ==> ContinuedOk(more[k])
    ensures MoreRead(p.(nread := n), more) == MoreRead(p, more).(nread := n)
    ensures MoreTaken(p.(nread := n), more) == MoreTaken(p, more)
  {
    hide Valued, ContinuedOk, Printable;
    if more != [] {
      var init, last := more[..|more| - 1], more[|more| - 1];
      MoreNotCounted(p, n, init);
      assert ContinuedOk(last);
      NotEmpty(last);
      ValuedStays(FoldLine(MoreRead(p, init)), n, last.text);
      assert FoldLine(MoreRead(p, init).(nread := n)) == FoldLine(MoreRead(p, init)).(nread := n);
    }
    forall k | 0 <= k < |more| ensures Printable(p.(nread := n), more[k].text) == Printable(p, more[k].text) {
      SamePrintable(p.(nread := n), p, more[k].text);
    }
  }

  /** A header line is taken exactly if it fits into the head and its value is one
      that its name may have; name and value are delivered as they stand. */
  lemma LineIsRead(s: Run, l: Line)
    requires InHead(s) && AtLine(s.p.state) && LineOk(l)
    ensures Accepted(Fold(s, LineText(l))) <==> s.p.nread + |LineText(l)| <= MAX_HEADER_SIZE && LineTaken(s.p, l)
    ensures Accepted(Fold(s, LineText(l))) ==> Fold(s, LineText(l)) == s.(p := LineRead(s.p, l), log := LineLog(s, l))
  {
    hide Step, Fold, Valued, Printable, NameRead, MoreRead, MoreTaken, MoreText, EndedLog, SepWalk;
    if l.value == [] {
      NamePart(s, l.name, l.gap + l.eol, S_HEADER_VALUE_DISCARD_LWS);
    } else {
      var xs := l.value + (MoreText(l.more) + l.eol);
      assert LineText(l) == (l.name + ([':'] + l.gap)) + xs;
      Prefix(s, l.name + ([':'] + l.gap), xs);
      NamePart(s, l.name, l.gap, S_HEADER_VALUE_DISCARD_WS);
      var a := Fold(s, l.name + ([':'] + l.gap));
      NameState(s.p, l.name);
      SamePrintable(NameRead(s.p, l.name), s.p, l.value);
      if Accepted(a) {
        ValuePart(a, l);
        SamePrintable(a.p, s.p, l.value);
        ValuedStays(Begun(s.p, l), a.p.nread, l.value);
        MoreNotCounted(Started(s.p, l), a.p.nread, l.more);
      }
    }
  }

  // Whole header blocks.

  function LinesText(ls: seq<Line>): seq<Byte> {
    if ls == [] then [] else LinesText(ls[..|ls| - 1]) + LineText(ls[|ls| - 1])
  }

  predicate LinesOk(ls: seq<Line>) { forall k :: 0 <= k < |ls| ==> LineOk(ls[k]) }

  function LinesRead(p: Parser, ls: seq<Line>): Parser
    requires LinesOk(ls)
  {
    if ls == [] then p else LineRead(LinesRead(p, ls[..|ls| - 1]), ls[|ls| - 1])
  }

  predicate LinesTaken(p: Parser, ls: seq<Line>)
    requires LinesOk(ls)
  {
    ls == [] || (LinesTaken(p, ls[..|ls| - 1]) && LineTaken(LinesRead(p, ls[..|ls| - 1]), ls[|ls| - 1]))
  }

  /** The names and values of a header block, each delivered in one piece. */
  function LinesLog(log: Log, ls: seq<Line>): Log {
    if ls == [] then log
    else
      Emit(Emit(LinesLog(log, ls[..|ls| - 1]), Data(HeaderField, ls[|ls| - 1].name)), Data(HeaderValue, Value(ls[|ls| - 1])))
  }

  lemma {:induction false} LinesStay(p: Parser, ls: seq<Line>)
    requires LinesOk(ls) && AtLine(p.state)
    ensures AtLine(LinesRead(p, ls).state) && LinesRead(p, ls).nread == p.nread + |LinesText(ls)|
  {
    hide LineOk, LineText, Begun, Started, MoreRead;
    if ls != [] {
      LinesStay(p, ls[..|ls| - 1]);
    }
  }

  lemma {:induction false} ErrnoStays(p: Parser, ls: seq<Line>)
    requires LinesOk(ls) && LinesTaken(p, ls) && p.errno == CHPE_OK
    ensures LinesRead(p, ls).errno == CHPE_OK
  {
    hide SepWalk, LineText, Started, MoreRead, Printable, NameRead;
    if ls != [] {
      var q := LinesRead(p, ls[..|ls| - 1]);
      ErrnoStays(p, ls[..|ls| - 1]);
      NameState(q, ls[|ls| - 1].name);
    }
  }

  /** A header block is taken line by line, and all names and values are delivered
      in their order; an empty value at the end of the block is still to come. */
  lemma {:induction false} LinesAreRead(s: Run, ls: seq<Line>)
    requires InHead(s) && AtLine(s.p.state) && LinesOk(ls)
    ensures var t := Fold(s, LinesText(ls));
            && (Accepted(t) <==> s.p.nread + |LinesText(ls)| <= MAX_HEADER_SIZE && LinesTaken(s.p, ls))
            && (Accepted(t) ==>
                  && t.p == LinesRead(s.p, ls) && InHead(t) && AtLine(t.p.state)
                  && EndedLog(t) == LinesLog(EndedLog(s), ls))
  {
    hide Step, Fold, LineOk, LineText, LineRead, LineTaken, EndedLog, Emit;
    if ls == [] {
      FoldNone(s);
    } else {
      var init, last := ls[..|ls| - 1], ls[|ls| - 1];
      LinesAreRead(s, init);
      Prefix(s, LinesText(init), LineText(last));
      var u := Fold(s, LinesText(init));
      LinesStay(s.p, init);
      if Accepted(u) {
        LineIsRead(u, last);
        LineLeaves(u, last);
      }
    }
  }

  lemma LineLeaves(s: Run, l: Line)
    requires InHead(s) && AtLine(s.p.state) && LineOk(l)
    ensures var t := s.(p := LineRead(s.p, l), log := LineLog(s, l));
            && AtLine(t.p.state) && t.p.nread == s.p.nread + |LineText(l)|
            && EndedLog(t) == Emit(Emit(EndedLog(s), Data(HeaderField, l.name)), Data(HeaderValue, Value(l)))
  {
    hide Started, MoreRead, NameRead, Emit, LineText, SepWalk;
    if l.value == [] {
      assert l.value + MoreValue(l.more) == [];
    }
  }
}
