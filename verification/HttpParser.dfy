/** http_parser_execute over whole buffers, with its bulk scanning loops and
    its marks, and the request that HTTPParser builds from the callbacks. */
module HttpExecute {
  import opened HttpTypes
  import opened HttpStep
  import opened HttpInvariant
  import opened HttpFold

  /** Where in the buffer the data being collected begins, for each kind. */
  datatype Marks = Marks(url: Option<nat>, field: Option<nat>, value: Option<nat>, body: Option<nat>)

  const NO_MARKS := Marks(None, None, None, None)

  /** The marks set on entry, when a buffer begins in the middle of some data. */
  function ResumeMarks(st: State): Marks {
    Marks(if UrlState(st) then Some(0) else None,
          if st == S_HEADER_FIELD then Some(0) else None,
          if st == S_HEADER_VALUE then Some(0) else None,
          None)
  }

  /** A mark is set exactly in the states that collect its data; so at most one
      is set at a time. */
  ghost predicate MarksFit(st: State, m: Marks) {
    && (m.url.Some? <==> UrlState(st))
    && (m.field.Some? <==> st == S_HEADER_FIELD)
    && (m.value.Some? <==> st == S_HEADER_VALUE)
    && (m.body.Some? ==> st == S_BODY_IDENTITY || st == S_BODY_IDENTITY_EOF
                         || st == S_CHUNK_DATA || st == S_CHUNK_DATA_ALMOST_DONE)
  }

  ghost predicate MarksBefore(m: Marks, i: nat) {
    && (m.url.Some? ==> m.url.value <= i) && (m.field.Some? ==> m.field.value <= i)
    && (m.value.Some? ==> m.value.value <= i) && (m.body.Some? ==> m.body.value <= i)
  }

  /** The log with the data collected so far, up to position `i`. */
  ghost function Pending(log: Log, m: Marks, data: seq<Byte>, i: nat): Log
    requires i <= |data| && MarksBefore(m, i)
  {
    if m.url.Some? then Emit(log, Data(Url, data[m.url.value..i]))
    else if m.field.Some? then Emit(log, Data(HeaderField, data[m.field.value..i]))
    else if m.value.Some? then Emit(log, Data(HeaderValue, data[m.value.value..i]))
    else if m.body.Some? then Emit(log, Data(Body, data[m.body.value..i]))
    else log
  }

  /** The fields, callbacks and marks after `i` bytes are what running byte by
      byte from `s` gives. */
  ghost predicate At(s: Run, data: seq<Byte>, i: nat, p: Parser, log: Log, m: Marks) {
    && i <= |data| && MarksBefore(m, i) && MarksFit(p.state, m)
    && p.errno == CHPE_OK
    && Fold(s, data[..i]) == Run(p, Pending(log, m, data, i), false, false)
  }

  lemma PendingGrows(log: Log, kind: DataKind, data: seq<Byte>, m: nat, i: nat, j: nat)
    requires m <= i <= j <= |data|
    ensures Emit(Emit(log, Data(kind, data[m..i])), Data(kind, data[i..j])) == Emit(log, Data(kind, data[m..j]))
  {
    EmitJoins(log, kind, data[m..i], data[i..j]);
    assert data[m..i] + data[i..j] == data[m..j];
  }

  lemma PendingResumes(s: Run, data: seq<Byte>)
    requires Inv(s) && s.p.errno == CHPE_OK && !s.stopped && !s.overrun
    ensures At(s, data, 0, s.p, s.log, ResumeMarks(s.p.state))
  {
    assert data[..0] == [] && data[0..0] == [];
    if UrlState(s.p.state) { EmitNothing(s.log, Url); }
    if s.p.state == S_HEADER_FIELD { EmitNothing(s.log, HeaderField); }
    if s.p.state == S_HEADER_VALUE { EmitNothing(s.log, HeaderValue); }
  }

  // The bulk scans count their bytes at the end.

  /** A scan that began at `start`, with one byte counted, has reached `p`: the
      fields `q` are those of the byte-by-byte run but for the count, unless the
      count is already over the limit. */
  ghost predicate Tracks(s: Run, data: seq<Byte>, start: nat, p: nat, q: Parser, log: Log) {
    && start <= p <= |data| && 1 <= q.nread <= MAX_HEADER_SIZE && q.errno == CHPE_OK
    && var n := q.nread - 1 + (p - start);
       if n <= MAX_HEADER_SIZE then Fold(s, data[..p]) == Run(q.(nread := n), log, false, false)
       else !Accepted(Fold(s, data[..p]))
  }

  lemma TracksByte(s: Run, data: seq<Byte>, start: nat, p: nat, q: Parser, log: Log, r: Parser, e: Event)
    requires Tracks(s, data, start, p, q, log) && p < |data| && ParsingHeader(q.state)
    requires r.nread == q.nread && r.errno == CHPE_OK && r.state != S_HEADERS_DONE
    requires var n := q.nread + (p - start);
             Next(q.(nread := n), data[p]) == r.(nread := n) && Events(q.(nread := n), data[p]) == [e]
    ensures Tracks(s, data, start, p + 1, r, Emit(log, e))
  {
    hide Next, Events, Fold;
    FoldNext(s, data, p);
    EmitOne(log, e);
    var n := q.nread - 1 + (p - start);
    if n < MAX_HEADER_SIZE {
      assert Counted(q.(nread := n)) == q.(nread := n + 1);
    }
  }

  lemma OverLimit(s: Run, data: seq<Byte>, start: nat, p: nat, q: Parser, log: Log)
    requires Tracks(s, data, start, p, q, log) && p < |data| && ParsingHeader(q.state)
    requires q.nread + (p - start) > MAX_HEADER_SIZE
    ensures !Accepted(Fold(s, data))
  {
    hide Next, Events;
    FoldNext(s, data, p);
    RefusedPrefix(s, data, p + 1);
  }

  /** The end of the buffer: the bytes scanned are counted now. */
  lemma BufferEnds(s: Run, data: seq<Byte>, start: nat, q: Parser, log: Log, m: Marks)
    requires start < |data| < UINT32 - MAX_HEADER_SIZE && MarksBefore(m, |data|) && MarksFit(q.state, m)
    requires Tracks(s, data, start, |data|, q, Pending(log, m, data, |data|))
    ensures var f := CountHeader(q, |data| - 1 - start);
            if f.errno == CHPE_OK then At(s, data, |data|, f, log, m) else !Accepted(Fold(s, data))
  {
    hide Fold, Pending;
    assert data[..|data|] == data;
    CountIsExact(q, |data| - 1 - start);
  }

  lemma FieldByteNext(q: Parser, ch: Byte, n: nat)
    requires q.state == S_HEADER_FIELD && q.errno == CHPE_OK && Token(ch) != '\0'
    ensures Next(q.(nread := n), ch) == FieldByte(q, ch, Token(ch)).(nread := n)
    ensures Events(q.(nread := n), ch) == [Data(HeaderField, [ch])]
  {
  }

  lemma FieldByteKeeps(q: Parser, ch: Byte)
    ensures var r := FieldByte(q, ch, Token(ch));
            r.state == q.state && r.nread == q.nread && r.errno == q.errno
  {
  }

  lemma GeneralStays(q: Parser, ch: Byte)
    requires q.hs == H_GENERAL
    ensures FieldByte(q, ch, Token(ch)) == q
  {
  }

  lemma CountsFit(s: Run, data: seq<Byte>, start: nat, p: nat, q: Parser, log: Log)
    requires Tracks(s, data, start, p, q, log)
    ensures start <= p <= |data| && q.errno == CHPE_OK
  {
    hide Fold;
  }

  lemma FieldScanByte(s: Run, data: seq<Byte>, start: nat, p: nat, q: Parser, log: Log, m: nat)
    requires m <= p < |data| && q.state == S_HEADER_FIELD && Token(data[p]) != '\0'
    requires Tracks(s, data, start, p, q, Emit(log, Data(HeaderField, data[m..p])))
    ensures Tracks(s, data, start, p + 1, FieldByte(q, data[p], Token(data[p])),
                   Emit(log, Data(HeaderField, data[m..p + 1])))
  {
    hide Next, Events, FieldByte, Fold, Token, Tracks, Emit, Step;
    var ch := data[p];
    var r := FieldByte(q, ch, Token(ch));
    FieldByteKeeps(q, ch);
    CountsFit(s, data, start, p, q, Emit(log, Data(HeaderField, data[m..p])));
    FieldByteNext(q, ch, q.nread + (p - start));
    TracksByte(s, data, start, p, q, Emit(log, Data(HeaderField, data[m..p])), r, Data(HeaderField, [ch]));
    assert data[p..p + 1] == [ch];
    PendingGrows(log, HeaderField, data, m, p, p + 1);
  }

  lemma FieldEndByte(c: Parser, ch: Byte)
    requires c.state == S_HEADER_FIELD && c.errno == CHPE_OK && Token(ch) == '\0'
    ensures Events(c, ch) == [] && !Stops(c, ch)
    ensures Next(c, ch)
            == if ch == ':' then Go(c, S_HEADER_VALUE_DISCARD_WS) else Fail(c, CHPE_INVALID_HEADER_TOKEN)
  {
    assert Next(c, ch) == OnHeaderField(c, ch);
  }

  /** The byte that ends a header name. */
  lemma FieldEnds(s: Run, data: seq<Byte>, start: nat, p: nat, q: Parser, log: Log)
    requires Tracks(s, data, start, p, q, log) && p < |data| && q.state == S_HEADER_FIELD
    requires q.nread + (p - start) <= MAX_HEADER_SIZE && Token(data[p]) == '\0'
    ensures if data[p] == ':' then
              Fold(s, data[..p + 1])
              == Run(Go(q.(nread := q.nread + (p - start)), S_HEADER_VALUE_DISCARD_WS), log, false, false)
            else !Accepted(Fold(s, data))
  {
    hide Token, Next, Events, Fold, Stops;
    FoldNext(s, data, p);
    var c := q.(nread := q.nread + (p - start));
    assert Counted(q.(nread := q.nread - 1 + (p - start))) == c;
    FieldEndByte(c, data[p]);
    assert EmitAll(log, []) == log;
    if data[p] != ':' {
      RefusedPrefix(s, data, p + 1);
    }
  }

  /** What is known while the body goes on, and when it is over. */
  lemma BodyPending(s: Run, data: seq<Byte>, n: nat, q: Parser, log: Log, from: nat)
    requires from <= n <= |data| && q.errno == CHPE_OK
    requires q.state == S_BODY_IDENTITY || q.state == S_CHUNK_DATA || q.state == S_CHUNK_DATA_ALMOST_DONE
    requires Fold(s, data[..n]) == Run(q, Emit(log, Data(Body, data[from..n])), false, false)
    ensures At(s, data, n, q, log, NO_MARKS.(body := Some(from)))
  {
    hide Fold;
  }

  lemma BodyOver(s: Run, data: seq<Byte>, n: nat, q: Parser, log: Log)
    requires n <= |data| && q.errno == CHPE_OK && q.state == S_MESSAGE_DONE
    requires Fold(s, data[..n]) == Run(q, log, false, false)
    ensures At(s, data, n, q, log, NO_MARKS)
  {
    hide Fold;
  }

  lemma BodyStands(s: Run, data: seq<Byte>, i: nat, p: Parser, log: Log, m: Marks)
    requires At(s, data, i, p, log, m) && (p.state == S_BODY_IDENTITY || p.state == S_CHUNK_DATA)
    ensures m == NO_MARKS.(body := m.body) && p.errno == CHPE_OK && (m.body.Some? ==> m.body.value <= i)
  {
  }

  /** The bulk of a body: `k` bytes at once. */
  lemma BodyBulk(s: Run, data: seq<Byte>, i: nat, k: nat, p: Parser, log: Log, m: Option<nat>)
    requires 0 < k && i + k <= |data| && k <= p.contentLength
    requires p.state == S_BODY_IDENTITY || p.state == S_CHUNK_DATA
    requires m.Some? ==> m.value <= i
    requires At(s, data, i, p, log, NO_MARKS.(body := m))
    ensures var from := if m.Some? then m.value else i;
            var q := TakeBody(p, k, BodyDone(p.state));
            var delivered := Emit(log, Data(Body, data[from..i + k]));
            Fold(s, data[..i + k])
            == Run(q, if q.state == S_MESSAGE_DONE then Emit(delivered, Notified(MessageComplete)) else delivered,
                   false, false)
  {
    hide Next, Events, Step, Fold;
    var here := Fold(s, data[..i]);
    FoldConcat(s, data[..i], data[i..i + k]);
    assert data[..i] + data[i..i + k] == data[..i + k];
    FoldBody(here, data[i..i + k]);
    if m.Some? {
      PendingGrows(log, Body, data, m.value, i, i + k);
    }
  }

  lemma EofBulk(s: Run, data: seq<Byte>, i: nat, p: Parser, log: Log, m: Option<nat>)
    requires i < |data| && p.state == S_BODY_IDENTITY_EOF
    requires m.Some? ==> m.value <= i
    requires At(s, data, i, p, log, NO_MARKS.(body := m))
    ensures var from := if m.Some? then m.value else i;
            Fold(s, data) == Run(p, Emit(log, Data(Body, data[from..])), false, false)
  {
    hide Next, Events, Step, Fold;
    FoldConcat(s, data[..i], data[i..]);
    assert data[..i] + data[i..] == data;
    FoldUntilEof(Fold(s, data[..i]), data[i..]);
    if m.Some? {
      PendingGrows(log, Body, data, m.value, i, |data|);
      assert data[i..|data|] == data[i..] && data[m.value..|data|] == data[m.value..];
    }
  }

  /** One byte outside the bulk states, put together. */
  lemma OrdinaryByte(s: Run, data: seq<Byte>, i: nat, p: Parser, log: Log, m: Marks)
    requires At(s, data, i, p, log, m) && i < |data|
    ensures var c := Counted(p);
            Fold(s, data[..i + 1])
            == if c.errno != CHPE_OK then Run(c, Pending(log, m, data, i), false, false)
               else Run(Next(c, data[i]), EmitAll(Pending(log, m, data, i), Events(c, data[i])),
                        Stops(c, data[i]), false)
  {
    hide Next, Events, Fold, Stops, Counted;
    FoldNext(s, data, i);
  }

  lemma CountedKeeps(p: Parser)
    requires p.errno == CHPE_OK
    ensures var c := Counted(p);
            c == p.(nread := c.nread, errno := c.errno) && (!ParsingHeader(p.state) ==> c == p)
  {
  }

  /** Bytes left over after the early return are refused. */
  lemma LeftOver(s: Run, data: seq<Byte>, i: nat)
    requires i < |data| && Fold(s, data[..i]).stopped
    ensures !Accepted(Fold(s, data))
  {
    hide Fold;
    FoldNext(s, data, i);
    RefusedPrefix(s, data, i + 1);
  }

  lemma TracksStarts(s: Run, data: seq<Byte>, i: nat, p: Parser, log: Log)
    requires i < |data| && ParsingHeader(p.state) && p.errno == CHPE_OK
    requires Fold(s, data[..i]) == Run(p, log, false, false) && Counted(p).errno == CHPE_OK
    requires p.nread <= MAX_HEADER_SIZE
    ensures Tracks(s, data, i, i, Counted(p), log)
  {
    hide Fold;
  }

  lemma CountIsExact(q: Parser, v: nat)
    requires q.nread + v < UINT32
    ensures var n := q.nread + v;
            CountHeader(q, v)
            == if n > MAX_HEADER_SIZE then q.(nread := n, errno := CHPE_HEADER_OVERFLOW) else q.(nread := n)
  {
  }

  lemma ValueByteKeeps(q: Parser, ch: Byte)
    ensures var r := ValueByte(q, ch);
            r.state == q.state && r.nread == q.nread && r.lenient == q.lenient
            && (q.hs == H_GENERAL ==> r == q)
  {
  }

  lemma ValueByteNext(q: Parser, ch: Byte, n: nat)
    requires q.state == S_HEADER_VALUE && q.errno == CHPE_OK
    ensures Next(q.(nread := n), ch)
            == if ch == CR then Go(q.(nread := n), S_HEADER_ALMOST_DONE)
               else if ch == LF then Go(q.(nread := n), S_HEADER_VALUE_LWS)
               else if !IsValueByte(q, ch) then Fail(q.(nread := n), CHPE_INVALID_HEADER_TOKEN)
               else ValueByte(q, ch).(nread := n)
    ensures Events(q.(nread := n), ch)
            == if IsValueByte(q, ch) && ValueByte(q, ch).errno == CHPE_OK
               then [Data(HeaderValue, [ch])] else []
  {
    var c := q.(nread := n);
    assert Next(c, ch) == OnHeaderValue(c, ch) && Events(c, ch) == HeaderEvents(c, ch);
    hide Next, Events;
    ValueCountApart(q, ch, n);
    hide ValueByte, IsValueByte;
  }

  /** The count plays no part in a value. */
  lemma ValueCountApart(q: Parser, ch: Byte, n: nat)
    requires q.state == S_HEADER_VALUE
    ensures ValueByte(q.(nread := n), ch) == ValueByte(q, ch).(nread := n)
    ensures IsValueByte(q.(nread := n), ch) == IsValueByte(q, ch)
  {
    hide ValueByte, IsHeaderChar;
    ByteNotCounted(q, n, ch);
  }

  /** One more byte of a value, accepted or refused. */
  lemma ValueScanByte(s: Run, data: seq<Byte>, start: nat, p: nat, q: Parser, log: Log, m: nat)
    requires m <= p < |data| && q.state == S_HEADER_VALUE && data[p] != CR && data[p] != LF
    requires Tracks(s, data, start, p, q, Emit(log, Data(HeaderValue, data[m..p])))
    ensures var r := ValueByte(q, data[p]);
            if IsValueByte(q, data[p]) && r.errno == CHPE_OK then
              Tracks(s, data, start, p + 1, r, Emit(log, Data(HeaderValue, data[m..p + 1])))
            else !Accepted(Fold(s, data))
  {
    hide Next, Events, ValueByte, Fold, IsHeaderChar;
    var ch := data[p];
    var n := q.nread + (p - start);
    var here := Emit(log, Data(HeaderValue, data[m..p]));
    ValueByteNext(q, ch, n);
    ValueByteKeeps(q, ch);
    if IsValueByte(q, ch) && ValueByte(q, ch).errno == CHPE_OK {
      TracksByte(s, data, start, p, q, here, ValueByte(q, ch), Data(HeaderValue, [ch]));
      assert data[p..p + 1] == [ch];
      PendingGrows(log, HeaderValue, data, m, p, p + 1);
    } else if n > MAX_HEADER_SIZE {
      OverLimit(s, data, start, p, q, here);
    } else {
      FoldNext(s, data, p);
      assert Counted(q.(nread := n - 1)) == q.(nread := n);
      RefusedPrefix(s, data, p + 1);
    }
  }

  /** The byte that ends a value. */
  lemma ValueEnds(s: Run, data: seq<Byte>, start: nat, p: nat, q: Parser, log: Log)
    requires Tracks(s, data, start, p, q, log) && p < |data| && q.state == S_HEADER_VALUE
    requires q.nread + (p - start) <= MAX_HEADER_SIZE && (data[p] == CR || data[p] == LF)
    ensures Fold(s, data[..p + 1])
            == Run(Go(q.(nread := q.nread + (p - start)),
                      if data[p] == CR then S_HEADER_ALMOST_DONE else S_HEADER_VALUE_LWS), log, false, false)
  {
    hide Next, Events, ValueByte, Fold;
    FoldNext(s, data, p);
    var n := q.nread + (p - start);
    assert Counted(q.(nread := n - 1)) == q.(nread := n);
    ValueByteNext(q, data[p], n);
    assert EmitAll(log, []) == log;
  }

  /** The same, with the marks gone and the count checked. */
  lemma LineEnds(s: Run, data: seq<Byte>, start: nat, p: nat, q: Parser, log: Log)
    requires Tracks(s, data, start, p, q, log) && p < |data| < UINT32 - MAX_HEADER_SIZE && q.state == S_HEADER_VALUE
    requires data[p] == CR || data[p] == LF
    ensures var n := q.nread + (p - start);
            var st := if data[p] == CR then S_HEADER_ALMOST_DONE else S_HEADER_VALUE_LWS;
            if n > MAX_HEADER_SIZE then !Accepted(Fold(s, data))
            else At(s, data, p + 1, Go(q.(nread := n), st), log, NO_MARKS)
    ensures forall f: Parser :: f.nread == q.nread ==>
              var n := q.nread + (p - start);
              CountHeader(f, p - start)
              == if n > MAX_HEADER_SIZE then f.(nread := n, errno := CHPE_HEADER_OVERFLOW) else f.(nread := n)
  {
    hide Fold, Next, Events, Step, StateInv, CountHeader;
    forall f: Parser | f.nread == q.nread
      ensures var n := q.nread + (p - start);
              CountHeader(f, p - start)
              == if n > MAX_HEADER_SIZE then f.(nread := n, errno := CHPE_HEADER_OVERFLOW) else f.(nread := n)
    {
      CountIsExact(f, p - start);
    }
    if q.nread + (p - start) > MAX_HEADER_SIZE {
      OverLimit(s, data, start, p, q, log);
    } else {
      ValueEnds(s, data, start, p, q, log);
    }
  }

  /** The general scan can step over one byte without looking at it, but only
      when the count is over the limit. */
  lemma TracksPast(s: Run, data: seq<Byte>, start: nat, p: nat, q: Parser, log: Log, other: Log)
    requires Tracks(s, data, start, p, q, log) && p < |data| && ParsingHeader(q.state)
    requires q.nread + (p - start) > MAX_HEADER_SIZE
    ensures Tracks(s, data, start, p + 1, q, other)
  {
    hide Next, Events, Fold;
    FoldNext(s, data, p);
  }

  /** What byte `ch` at position `i` marks in a header state. */
  ghost function HeaderMarks(st: State, ch: Byte, i: nat): Marks {
    var startsField := ch != CR && ch != LF && Token(ch) != '\0';
    match st
    case S_HEADER_FIELD_START => if startsField then NO_MARKS.(field := Some(i)) else NO_MARKS
    case S_HEADER_VALUE_DISCARD_WS =>
      if ch == ' ' || ch == '\t' || ch == CR || ch == LF then NO_MARKS else NO_MARKS.(value := Some(i))
    case S_HEADER_VALUE_DISCARD_LWS =>
      if ch != ' ' && ch != '\t' && startsField then NO_MARKS.(field := Some(i)) else NO_MARKS
    case S_HEADER_VALUE_LWS =>
      if ch == ' ' || ch == '\t' then NO_MARKS.(value := Some(i))
      else if startsField then NO_MARKS.(field := Some(i)) else NO_MARKS
    case _ => NO_MARKS
  }

  lemma FieldStartState(p: Parser, ch: Byte)
    requires p.state == S_HEADER_FIELD_START
    ensures var q := OnHeaderFieldStart(p, ch);
            q.errno == CHPE_OK && p.errno == CHPE_OK ==>
              (q.state == S_HEADER_FIELD <==> ch != CR && ch != LF && Token(ch) != '\0')
  {
  }

  lemma HeaderMarksFit(p: Parser, ch: Byte, i: nat)
    requires S_HEADER_FIELD_START <= p.state <= S_HEADER_ALMOST_DONE
    requires p.state != S_HEADER_FIELD && p.state != S_HEADER_VALUE && p.state != S_HEADER_VALUE_START
    requires p.errno == CHPE_OK && OnHeader(p, ch).errno == CHPE_OK
    ensures MarksFit(OnHeader(p, ch).state, HeaderMarks(p.state, ch, i))
  {
    hide HeaderFlags, OnValueStart, Token;
    match p.state
    case S_HEADER_FIELD_START =>
      FieldStartState(p, ch);
      assert OnHeader(p, ch) == OnHeaderFieldStart(p, ch);
    case S_HEADER_VALUE_DISCARD_WS =>
      StartedFields(p, ch);
      assert OnHeader(p, ch) == OnDiscardWs(p, ch);
    case S_HEADER_VALUE_DISCARD_LWS =>
      FieldStartState(Go(p, S_HEADER_FIELD_START), ch);
      assert OnHeader(p, ch) == OnDiscardLws(p, ch);
    case S_HEADER_VALUE_LWS =>
      FieldStartState(EndHeader(p), ch);
      StartedFields(FoldLine(p), ch);
      assert OnHeader(p, ch) == OnValueLws(p, ch);
    case _ =>
  }

  /** The states whose code consumes more than one byte at a time. */
  predicate Bulk(st: State) {
    st == S_HEADER_FIELD || st == S_HEADER_VALUE
    || st == S_BODY_IDENTITY || st == S_BODY_IDENTITY_EOF || st == S_CHUNK_DATA
  }

  function Concat(pieces: seq<seq<Byte>>): seq<Byte> {
    if pieces == [] then [] else Concat(pieces[..|pieces| - 1]) + pieces[|pieces| - 1]
  }

  /** Running over one piece after the other: an upgrade ends a call, and the next
      one goes on. */
  function InPieces(s: Run, pieces: seq<seq<Byte>>): Run {
    if pieces == [] then s
    else
      var t := InPieces(s, pieces[..|pieces| - 1]);
      if Accepted(t) then Fold(t.(stopped := false), pieces[|pieces| - 1]) else t
  }

  /** None of the pieces but the last ends in an upgrade. */
  predicate NoneStops(s: Run, pieces: seq<seq<Byte>>) {
    forall k :: 0 < k < |pieces| ==> !InPieces(s, pieces[..k]).stopped
  }

  lemma {:induction false} PiecesRefused(s: Run, pieces: seq<seq<Byte>>, k: nat)
    requires k <= |pieces| && !Accepted(InPieces(s, pieces[..k]))
    ensures !Accepted(InPieces(s, pieces))
    decreases |pieces| - k
  {
    hide Fold, Accepted;
    if k == |pieces| {
      assert pieces[..k] == pieces;
    } else {
      assert pieces[..k + 1][..k] == pieces[..k];
      PiecesRefused(s, pieces, k + 1);
    }
  }

  lemma StoppedRefuses(s: Run, data: seq<Byte>)
    requires s.stopped && data != []
    ensures !Accepted(Fold(s, data))
  {
    FoldNone(s);
    assert data[..0] == [];
    LeftOver(s, data, 0);
  }

  lemma {:induction false} NoneStopsMore(s: Run, pieces: seq<seq<Byte>>)
    requires pieces != []
    ensures var init := pieces[..|pieces| - 1];
            NoneStops(s, pieces) <==> NoneStops(s, init) && (init != [] ==> !InPieces(s, init).stopped)
  {
    hide InPieces;
    var init := pieces[..|pieces| - 1];
    assert forall k :: 0 < k <= |init| ==> pieces[..k] == init[..k];
    assert init[..|init|] == init;
    if init != [] && NoneStops(s, pieces) {
      assert !InPieces(s, pieces[..|init|]).stopped;
    }
  }

  /** A whole input is accepted exactly when its pieces are and none but the last
      ends in an upgrade; the runs are then the same. */
  lemma {:induction false} PiecesIff(s: Run, pieces: seq<seq<Byte>>)
    requires Live(s) && forall k :: 0 <= k < |pieces| ==> pieces[k] != []
    ensures Accepted(Fold(s, Concat(pieces))) <==> Accepted(InPieces(s, pieces)) && NoneStops(s, pieces)
    ensures Accepted(Fold(s, Concat(pieces))) ==> Fold(s, Concat(pieces)) == InPieces(s, pieces)
  {
    hide Fold;
    if pieces == [] {
      FoldNone(s);
    } else {
      var init, last := pieces[..|pieces| - 1], pieces[|pieces| - 1];
      PiecesIff(s, init);
      NoneStopsMore(s, pieces);
      FoldConcat(s, Concat(init), last);
      var t := Fold(s, Concat(init));
      if !Accepted(t) {
        RefusedForGood(t, last);
      } else if t.stopped {
        StoppedRefuses(t, last);
      }
    }
  }

  class HttpParser {
    var f: Parser            // the http_parser struct
    var events: seq<Event>   // every callback run since the parser was made

    ghost predicate Valid()
      reads this
    {
      Inv(Run(f, Canon(events), false, false))
    }

    /** http_parser_init: all fields zero but the state. */
    constructor ()
      ensures f == INITIAL && events == [] && Valid()
    {
      f, events := INITIAL, [];
    }

    method Notify(note: Note)
      modifies this`events
      ensures events == old(events) + [Notified(note)]
      ensures Canon(events) == Emit(Canon(old(events)), Notified(note))
    {
      events := events + [Notified(note)];
    }

    /** CALLBACK_DATA: delivers the bytes from the mark up to `end`, if set. */
    method Deliver(kind: DataKind, mark: Option<nat>, data: seq<Byte>, end: nat)
      requires mark.Some? ==> mark.value <= end <= |data|
      modifies this`events
      ensures events == if mark.None? then old(events)
                        else old(events) + [Data(kind, data[mark.value..end])]
      ensures Canon(events) == if mark.None? then Canon(old(events))
                               else Emit(Canon(old(events)), Data(kind, data[mark.value..end]))
    {
      if mark.Some? {
        events := events + [Data(kind, data[mark.value..end])];
      }
    }

    /** The callbacks of s_headers_done. */
    method AtHeadersDone(p: Parser)
      modifies this`events
      ensures events == old(events) + HeadersDoneEvents(p)
      ensures Canon(events) == EmitAll(Canon(old(events)), HeadersDoneEvents(p))
    {
      if p.upgrade {
        Notify(MessageComplete);
      } else if p.flags.skipBody {
        Notify(MessageComplete);
      } else if p.flags.chunked {
      } else if p.usesTE {
      } else if p.contentLength == 0 {
        Notify(MessageComplete);
      } else if p.contentLength != ULLONG_MAX {
      } else {
        Notify(MessageComplete);
      }
      EmitOne(Canon(old(events)), Notified(MessageComplete));
    }

    /** The callbacks of s_headers_almost_done, re-executed states included. */
    method AtHeadersEnd(p: Parser)
      modifies this`events
      ensures events == old(events) + HeadersEndEvents(p)
      ensures Canon(events) == EmitAll(Canon(old(events)), HeadersEndEvents(p))
    {
      EmitOne(Canon(old(events)), Notified(MessageComplete));
      EmitOne(Canon(old(events)), Notified(HeadersComplete));
      if p.flags.trailing {
        Notify(MessageComplete);
      } else if FramingConflict(p) {
      } else {
        Notify(HeadersComplete);
        AtHeadersDone(HeadersOver(p));
        EmitAllConcat(Canon(old(events)), [Notified(HeadersComplete)], HeadersDoneEvents(HeadersOver(p)));
      }
    }

    /** The marks and callbacks of s_header_field_start. */
    method AtFieldStart(p: Parser, data: seq<Byte>, i: nat) returns (marks: Marks)
      requires i < |data|
      modifies this`events
      ensures MarksBefore(marks, i + 1)
      ensures marks == if data[i] != CR && data[i] != LF && Token(data[i]) != '\0'
                       then NO_MARKS.(field := Some(i)) else NO_MARKS
      ensures Pending(Canon(events), marks, data, i + 1)
           == EmitAll(Canon(old(events)), FieldStartEvents(p, data[i]))
    {
      marks := NO_MARKS;
      if data[i] == LF {
        AtHeadersEnd(p);
      } else if data[i] != CR && Token(data[i]) != '\0' {
        marks := marks.(field := Some(i));
        assert data[i..i + 1] == [data[i]];
        EmitOne(Canon(events), Data(HeaderField, [data[i]]));
      }
    }

    /** The marks and callbacks of a byte that begins a value. */
    method AtValueStart(data: seq<Byte>, i: nat) returns (marks: Marks)
      requires i < |data|
      ensures marks == NO_MARKS.(value := Some(i))
      ensures Pending(Canon(events), marks, data, i + 1)
           == EmitAll(Canon(events), [Data(HeaderValue, [data[i]])])
    {
      marks := NO_MARKS.(value := Some(i));
      assert data[i..i + 1] == [data[i]];
      EmitOne(Canon(events), Data(HeaderValue, [data[i]]));
    }

    /** The marks and callbacks of one byte in the header states that have no
        loop of their own. */
    method AtHeader(p: Parser, data: seq<Byte>, i: nat) returns (marks: Marks)
      requires i < |data| && S_HEADER_FIELD_START <= p.state <= S_HEADER_ALMOST_DONE
      requires p.state != S_HEADER_FIELD && p.state != S_HEADER_VALUE && p.state != S_HEADER_VALUE_START
      requires p.errno == CHPE_OK && OnHeader(p, data[i]).errno == CHPE_OK
      modifies this`events
      ensures MarksBefore(marks, i + 1) && marks == HeaderMarks(p.state, data[i], i)
      ensures Pending(Canon(events), marks, data, i + 1)
           == EmitAll(Canon(old(events)), HeaderEvents(p, data[i]))
    {
      var ch := data[i];
      marks := NO_MARKS;
      if p.state == S_HEADER_FIELD_START {
        marks := AtFieldStart(p, data, i);
      } else if p.state == S_HEADER_VALUE_DISCARD_WS {
        if ch != ' ' && ch != '\t' && ch != CR && ch != LF {
          assert OnHeader(p, ch) == OnValueStart(p, ch);
          marks := AtValueStart(data, i);
        }
      } else if p.state == S_HEADER_VALUE_DISCARD_LWS {
        if ch != ' ' && ch != '\t' {
          Deliver(HeaderValue, Some(i), data, i);
          assert data[i..i] == [];
          EmitOne(Canon(old(events)), Data(HeaderValue, []));
          EmitAllConcat(Canon(old(events)), [Data(HeaderValue, [])], FieldStartEvents(p, ch));
          marks := AtFieldStart(p, data, i);
        }
      } else if p.state == S_HEADER_VALUE_LWS {
        if ch == ' ' || ch == '\t' {
          assert OnHeader(p, ch) == OnValueStart(FoldLine(p), ch);
          marks := AtValueStart(data, i);
        } else {
          marks := AtFieldStart(EndHeader(p), data, i);
        }
      }
    }

    lemma UrlEvents(log: Log, p: Parser, ch: Byte)
      requires S_REQ_SPACES_BEFORE_URL <= p.state <= S_REQ_QUERY_STRING && Next(p, ch).errno == CHPE_OK
      ensures Events(p, ch) == if UrlState(Next(p, ch).state) then [Data(Url, [ch])] else []
      ensures EmitAll(log, []) == log
      ensures !UrlState(Next(p, ch).state) ==> MarksFit(Next(p, ch).state, NO_MARKS)
    {
    }

    /** The marks and callbacks of one byte of the URL, or behind it. */
    method AtUrl(ghost s: Run, p: Parser, data: seq<Byte>, i: nat, before: Marks) returns (marks: Marks)
      requires i < |data| && S_REQ_SPACES_BEFORE_URL <= p.state <= S_REQ_QUERY_STRING
      requires p.errno == CHPE_OK && f == Next(p, data[i]) && f.errno == CHPE_OK
      requires MarksBefore(before, i) && MarksFit(p.state, before)
      requires s == Run(p, Pending(Canon(events), before, data, i), false, false)
      modifies this`events
      ensures MarksBefore(marks, i + 1) && MarksFit(f.state, marks)
      ensures Pending(Canon(events), marks, data, i + 1) == EmitAll(s.log, Events(p, data[i]))
    {
      hide Next, Events, Emit, EmitAll;
      var ch := data[i];
      marks := before;
      UrlEvents(s.log, p, ch);
      EmitOne(s.log, Data(Url, [ch]));
      if UrlState(f.state) {
        if marks.url.None? {
          marks := marks.(url := Some(i));
        }
        assert data[i..i + 1] == [ch];
        PendingGrows(Canon(events), Url, data, marks.url.value, i, i + 1);
      } else {
        Deliver(Url, marks.url, data, i);
        marks := marks.(url := None);
      }
    }

    lemma FrontEvents(log: Log, p: Parser, ch: Byte)
      requires Next(p, ch).errno == CHPE_OK
      ensures EmitAll(log, []) == log
      ensures p.state == S_START_REQ ==> Events(p, ch) == if ch != CR && ch != LF then [Notified(MessageBegin)] else []
      ensures p.state == S_REQ_METHOD ==> Events(p, ch) == [Notified(OnMethod)]
      ensures S_REQ_HTTP_START <= p.state <= S_REQ_LINE_ALMOST_DONE || p.state <= S_DEAD ==> Events(p, ch) == []
      ensures p.state <= S_REQ_METHOD || S_REQ_HTTP_START <= p.state <= S_REQ_LINE_ALMOST_DONE ==>
                MarksFit(Next(p, ch).state, NO_MARKS)
      ensures S_HEADER_FIELD_START <= p.state <= S_HEADER_ALMOST_DONE ==>
                Next(p, ch) == OnHeader(p, ch) && Events(p, ch) == HeaderEvents(p, ch)
    {
      hide OnHeader, HeaderEvents, ParseUrlChar, FirstMethod, IsAlpha, Redirect, OnFraming;
    }

    /** The marks and callbacks of one byte behind the headers. */
    method AtFraming(ghost s: Run, p: Parser, data: seq<Byte>, i: nat, before: Marks) returns (marks: Marks)
      requires i < |data| && p.state >= S_CHUNK_SIZE_START && !Bulk(p.state)
      requires p.errno == CHPE_OK && f == Next(p, data[i]) && f.errno == CHPE_OK && Ready(p)
      requires MarksBefore(before, i) && MarksFit(p.state, before)
      requires s == Run(p, Pending(Canon(events), before, data, i), false, false)
      modifies this`events
      ensures MarksBefore(marks, i + 1) && MarksFit(f.state, marks)
      ensures Pending(Canon(events), marks, data, i + 1) == EmitAll(s.log, Events(p, data[i]))
    {
      var ch := data[i];
      marks := before;
      EmitOne(s.log, Notified(MessageComplete));
      if p.state == S_HEADERS_ALMOST_DONE {
        if ch == LF { AtHeadersEnd(p); }
      } else if p.state == S_HEADERS_DONE {
        if ch == LF { AtHeadersDone(p); }
      } else if p.state == S_CHUNK_DATA_ALMOST_DONE {
        Deliver(Body, marks.body, data, i);
        marks := marks.(body := None);
      } else if p.state == S_MESSAGE_DONE {
        Notify(MessageComplete);
      }
    }

    /** One byte in any state that has no loop of its own. The size check has
        been done; the fields are those before the switch. */
    method AtByte(ghost s: Run, data: seq<Byte>, i: nat, before: Marks) returns (marks: Marks)
      requires i < |data| && Ready(f) && !Bulk(f.state)
      requires MarksBefore(before, i) && MarksFit(f.state, before)
      requires s == Run(f, Pending(Canon(events), before, data, i), false, false)
      modifies this
      ensures f == Next(old(f), data[i])
      ensures f.errno == CHPE_OK ==>
        && MarksBefore(marks, i + 1) && MarksFit(f.state, marks)
        && Pending(Canon(events), marks, data, i + 1) == EmitAll(s.log, Events(old(f), data[i]))
    {
      hide Next, Events, HeaderEvents, OnHeader, Emit, EmitAll;
      var p, ch := f, data[i];
      marks := before;
      f := Next(p, ch);
      if f.errno != CHPE_OK { return; }
      EmitOne(s.log, Notified(MessageBegin));
      EmitOne(s.log, Notified(OnMethod));
      FrontEvents(s.log, p, ch);
      if p.state == S_START_REQ {
        if ch != CR && ch != LF {
          Notify(MessageBegin);
        }
      } else if p.state == S_REQ_METHOD {
        Notify(OnMethod);
      } else if S_REQ_SPACES_BEFORE_URL <= p.state <= S_REQ_QUERY_STRING {
        marks := AtUrl(s, p, data, i, before);
      } else if S_HEADER_FIELD_START <= p.state <= S_HEADER_ALMOST_DONE {
        marks := AtHeader(p, data, i);
        HeaderMarksFit(p, ch, i);
      } else if p.state >= S_CHUNK_SIZE_START {
        marks := AtFraming(s, p, data, i, before);
      }
    }

    /** s_header_field: takes token bytes up to a byte that is none, or up to
        the end of the buffer, and counts them at the end. */
    method ScanField(ghost s: Run, data: seq<Byte>, start: nat, before: Marks)
      returns (p: nat, marks: Marks)
      requires start < |data| < UINT32 - MAX_HEADER_SIZE
      requires Ready(f) && f.state == S_HEADER_FIELD
      requires MarksBefore(before, start) && MarksFit(f.state, before)
      requires Tracks(s, data, start, start, f, Pending(Canon(events), before, data, start))
      modifies this
      ensures start <= p < |data|
      ensures f.errno == CHPE_OK ==> At(s, data, p + 1, f, Canon(events), marks)
      ensures f.errno != CHPE_OK ==> !Accepted(Fold(s, data))
    {
      hide Next, Events, FieldByte, Fold, FieldNext, Token, StateInv;
      ghost var log := Canon(events);
      var m := before.field.value;
      marks := before;
      p := start;
      while p < |data| && Token(data[p]) != '\0'
        invariant start <= p <= |data| && events == old(events)
        invariant f.state == S_HEADER_FIELD && f.nread == old(f.nread)
        invariant Tracks(s, data, start, p, f, Emit(log, Data(HeaderField, data[m..p])))
        decreases |data| - p
      {
        if f.hs == H_GENERAL {
          var left := |data| - p;
          var pe := p + if left < MAX_HEADER_SIZE then left else MAX_HEADER_SIZE;
          ghost var g := f;
          while p + 1 < pe && Token(data[p + 1]) != '\0'
            invariant start <= p < pe <= |data| && Token(data[p]) != '\0'
            invariant f == g && events == old(events)
            invariant Tracks(s, data, start, p, f, Emit(log, Data(HeaderField, data[m..p])))
          {
            FieldScanByte(s, data, start, p, f, log, m);
            GeneralStays(f, data[p]);
            p := p + 1;
          }
        }
        FieldScanByte(s, data, start, p, f, log, m);
        FieldByteKeeps(f, data[p]);
        f := FieldByte(f, data[p], Token(data[p]));
        p := p + 1;
      }
      p, marks := EndField(s, data, start, p, log, before);
    }

    /** What follows the scan: the byte behind the name, or the end of the
        buffer. */
    method EndField(ghost s: Run, data: seq<Byte>, start: nat, stop: nat, ghost log: Log, before: Marks)
      returns (p: nat, marks: Marks)
      requires start < |data| < UINT32 - MAX_HEADER_SIZE && start <= stop <= |data|
      requires stop < |data| ==> Token(data[stop]) == '\0'
      requires f.state == S_HEADER_FIELD && log == Canon(events)
      requires MarksBefore(before, stop) && MarksFit(f.state, before)
      requires Tracks(s, data, start, stop, f, Pending(log, before, data, stop))
      modifies this
      ensures start <= p < |data|
      ensures f.errno == CHPE_OK ==> At(s, data, p + 1, f, Canon(events), marks)
      ensures f.errno != CHPE_OK ==> !Accepted(Fold(s, data))
    {
      hide Next, Events, Fold, CountHeader, Canon, Token, StateInv;
      p, marks := stop, before;
      ghost var q := f;
      if p == |data| {
        BufferEnds(s, data, start, q, log, before);
        p := p - 1;
        f := CountHeader(f, p - start);
        return;
      }
      ghost var here := Pending(log, before, data, stop);
      CountIsExact(q, p - start);
      f := CountHeader(f, p - start);
      if f.errno != CHPE_OK {
        OverLimit(s, data, start, p, q, here);
        return;
      }
      FieldEnds(s, data, start, p, q, here);
      if data[p] == ':' {
        f := Go(f, S_HEADER_VALUE_DISCARD_WS);
        Deliver(HeaderField, marks.field, data, p);
        marks := marks.(field := None);
      } else {
        f := Fail(f, CHPE_INVALID_HEADER_TOKEN);
      }
    }

    /** s_header_value: takes value bytes up to the end of the line, or up to
        the end of the buffer; the sub-state is kept in a local variable. */
    method ScanValue(ghost s: Run, data: seq<Byte>, start: nat, before: Marks)
      returns (p: nat, marks: Marks)
      requires start < |data| < UINT32 - MAX_HEADER_SIZE
      requires Ready(f) && f.state == S_HEADER_VALUE
      requires MarksBefore(before, start) && MarksFit(f.state, before)
      requires Tracks(s, data, start, start, f, Pending(Canon(events), before, data, start))
      modifies this
      ensures start <= p < |data|
      ensures f.errno == CHPE_OK ==> At(s, data, p + 1, f, Canon(events), marks)
      ensures f.errno != CHPE_OK ==> !Accepted(Fold(s, data))
    {
      hide Next, Events, ValueByte, Fold, StateInv, ValueNext, IsHeaderChar;
      ghost var log := Canon(events);
      var m := before.value.value;
      var hs := f.hs;
      marks := before;
      p := start;
      while p < |data| && data[p] != CR && data[p] != LF
        invariant start <= p <= |data| && events == old(events)
        invariant f.state == S_HEADER_VALUE && f.nread == old(f.nread)
        invariant Tracks(s, data, start, p, f.(hs := hs), Emit(log, Data(HeaderValue, data[m..p])))
        decreases |data| - p
      {
        var q := f.(hs := hs);
        ValueScanByte(s, data, start, p, q, log, m);
        if !IsValueByte(f, data[p]) {
          f := Fail(f, CHPE_INVALID_HEADER_TOKEN);
          return;
        }
        if hs == H_GENERAL {
          var ok;
          ok, p := ScanGeneral(s, data, start, p, q, log, m);
          if !ok {
            f := Fail(f, CHPE_INVALID_HEADER_TOKEN);
            return;
          }
        } else {
          var r := ValueByte(q, data[p]);
          ValueByteKeeps(q, data[p]);
          f, hs := r.(hs := f.hs), r.hs;
          if f.errno != CHPE_OK {
            return;
          }
          p := p + 1;
        }
      }
      p, marks := EndValue(s, data, start, p, hs, log, before);
    }

    /** What follows the scan: the end of the line, or of the buffer. */
    method EndValue(ghost s: Run, data: seq<Byte>, start: nat, stop: nat, hs: HeaderState, ghost log: Log, before: Marks)
      returns (p: nat, marks: Marks)
      requires start < |data| < UINT32 - MAX_HEADER_SIZE && start <= stop <= |data|
      requires stop < |data| ==> data[stop] == CR || data[stop] == LF
      requires f.state == S_HEADER_VALUE && f.errno == CHPE_OK && log == Canon(events)
      requires MarksBefore(before, stop) && MarksFit(f.state, before)
      requires Tracks(s, data, start, stop, f.(hs := hs), Pending(log, before, data, stop))
      modifies this
      ensures start <= p < |data|
      ensures f.errno == CHPE_OK ==> At(s, data, p + 1, f, Canon(events), marks)
      ensures f.errno != CHPE_OK ==> !Accepted(Fold(s, data))
    {
      hide Next, Events, Fold, Step, StateInv, Tracks, At, CountHeader, Canon;
      p, marks := stop, before;
      ghost var q := f.(hs := hs);
      if p == |data| {
        BufferEnds(s, data, start, q, log, before);
        hide Tracks, At, Pending, CountHeader, Canon;
        p := p - 1;
        f := CountHeader(f.(hs := hs), p - start);
        return;
      }
      ghost var n, here := q.nread + (p - start), Pending(log, before, data, stop);
      LineEnds(s, data, start, p, q, here);
      if data[p] == LF {
        f := CountHeader(Go(f, S_HEADER_ALMOST_DONE), p - start);
        if f.errno == CHPE_OK {
          Deliver(HeaderValue, marks.value, data, p);
          marks := marks.(value := None);
          // Re-executed: the line feed is the one s_header_almost_done expects.
          f := Go(f.(hs := hs), S_HEADER_VALUE_LWS);
          assert f == Go(q.(nread := n), S_HEADER_VALUE_LWS);
        }
      } else {
        f := Go(f.(hs := hs), S_HEADER_ALMOST_DONE);
        Deliver(HeaderValue, marks.value, data, p);
        marks := marks.(value := None);
        f := CountHeader(f, p - start);
        assert f.errno == CHPE_OK ==> f == Go(q.(nread := n), S_HEADER_ALMOST_DONE);
      }
    }

    /** The scan of a value that nothing depends on. It looks at no more than
        the header size limit, and then steps over the byte it stopped at. */
    method ScanGeneral(ghost s: Run, data: seq<Byte>, start: nat, from: nat, q: Parser, ghost log: Log, ghost m: nat)
      returns (ok: bool, p: nat)
      requires m <= from < |data| && q.state == S_HEADER_VALUE && q.hs == H_GENERAL
      requires data[from] != CR && data[from] != LF && IsValueByte(q, data[from])
      requires Tracks(s, data, start, from, q, Emit(log, Data(HeaderValue, data[m..from])))
      ensures if ok then from < p <= |data| else from <= p < |data|
      ensures ok ==> Tracks(s, data, start, p, q, Emit(log, Data(HeaderValue, data[m..p])))
      ensures !ok ==> !Accepted(Fold(s, data))
    {
      hide Next, Events, ValueByte, Fold, StateInv, ValueNext, IsHeaderChar;
      var left := |data| - from;
      var pe := from + if left < MAX_HEADER_SIZE then left else MAX_HEADER_SIZE;
      p := from;
      while p != pe && data[p] != CR && data[p] != LF
        invariant from <= p <= pe <= |data|
        invariant p == from ==> data[p] != CR && data[p] != LF
        invariant Tracks(s, data, start, p, q, Emit(log, Data(HeaderValue, data[m..p])))
        decreases pe - p
      {
        ValueScanByte(s, data, start, p, q, log, m);
        ValueByteKeeps(q, data[p]);
        if !IsValueByte(q, data[p]) {
          return false, p;
        }
        p := p + 1;
      }
      if p == pe < |data| {
        TracksPast(s, data, start, p, q, Emit(log, Data(HeaderValue, data[m..p])),
                   Emit(log, Data(HeaderValue, data[m..p + 1])));
        p := p + 1;
      }
      ok := true;
    }

    /** s_body_identity and s_chunk_data: as much of the body as there is. */
    method TakeBytes(ghost s: Run, data: seq<Byte>, i: nat, before: Marks) returns (p: nat, marks: Marks)
      requires i < |data| && Ready(f) && (f.state == S_BODY_IDENTITY || f.state == S_CHUNK_DATA)
      requires At(s, data, i, f, Canon(events), before)
      modifies this
      ensures i <= p < |data| && f.errno == CHPE_OK
      ensures At(s, data, p + 1, f, Canon(events), marks)
    {
      hide Next, Events, Fold, At, Pending, Emit;
      var left := |data| - i;
      var toRead := if f.contentLength < left then f.contentLength else left;
      BodyStands(s, data, i, f, Canon(events), before);
      BodyBulk(s, data, i, toRead, f, Canon(events), before.body);
      marks := if before.body.None? then before.(body := Some(i)) else before;
      ghost var from, log := marks.body.value, Canon(events);
      if f.state == S_CHUNK_DATA {
        f := TakeBody(f, toRead, S_CHUNK_DATA_ALMOST_DONE);
        p := i + toRead - 1;
        BodyPending(s, data, p + 1, f, log, from);
      } else {
        f := TakeBody(f, toRead, S_MESSAGE_DONE);
        p := i + toRead - 1;
        if f.contentLength == 0 {
          Deliver(Body, marks.body, data, p + 1);
          marks := marks.(body := None);
          // Re-executed: s_message_done.
          Notify(MessageComplete);
          BodyOver(s, data, p + 1, f, Canon(events));
        } else {
          BodyPending(s, data, p + 1, f, log, from);
        }
      }
    }

    /** One call on one buffer: the number of bytes consumed. */
    method Execute(data: seq<Byte>) returns (n: nat)
      requires Valid() && |data| < UINT32 - MAX_HEADER_SIZE
      modifies this
      ensures Valid()
      ensures n <= |data| || (data == [] && n == 1)
      ensures |data| > 0 && old(f).errno == CHPE_OK ==>
        var s := Fold(Run(old(f), Canon(old(events)), false, false), data);
        && (f.errno == CHPE_OK && n == |data| <==> Accepted(s))
        && (Accepted(s) ==> f == s.p && Canon(events) == s.log)
      ensures old(f).errno != CHPE_OK ==> n == 0 && f == old(f) && events == old(events)
      ensures data == [] && old(f).errno == CHPE_OK ==>
        if old(f).state == S_BODY_IDENTITY_EOF then
          f == old(f) && n == 0 && events == old(events) + [Notified(MessageComplete)]
        else if old(f).state == S_DEAD || old(f).state == S_START_REQ then
          f == old(f) && n == 0 && events == old(events)
        else f == Fail(old(f), CHPE_INVALID_EOF_STATE) && n == 1 && events == old(events)
    {
      if f.errno != CHPE_OK {
        return 0;
      }
      if data == [] {
        if f.state == S_BODY_IDENTITY_EOF {
          Notify(MessageComplete);
          return 0;
        } else if f.state == S_DEAD || f.state == S_START_REQ {
          return 0;
        } else {
          f := Fail(f, CHPE_INVALID_EOF_STATE);
          return 1;
        }
      }
      n := ExecuteBytes(data);
    }

    method ExecuteBytes(data: seq<Byte>) returns (n: nat)
      requires Valid() && 0 < |data| < UINT32 - MAX_HEADER_SIZE && f.errno == CHPE_OK
      modifies this
      ensures Valid() && n <= |data|
      ensures var s := Fold(Run(old(f), Canon(old(events)), false, false), data);
        && (f.errno == CHPE_OK && n == |data| <==> Accepted(s))
        && (Accepted(s) ==> f == s.p && Canon(events) == s.log)
    {
      hide Next, Events, Fold, StateInv, Stops, Counted;
      ghost var s := Run(f, Canon(events), false, false);
      var marks := ResumeMarks(f.state);
      PendingResumes(s, data);
      n := 0;
      while n < |data|
        invariant 0 <= n <= |data|
        invariant At(s, data, n, f, Canon(events), marks)
        decreases |data| - n
      {
        FoldKeepsInv(s, data[..n]);
        var stop;
        n, marks, stop := Consume(s, data, n, marks);
        if f.errno != CHPE_OK {
          return;
        }
        if stop {
          assert data[..|data|] == data;
          FoldKeepsInv(s, data[..n + 1]);
          if n + 1 < |data| {
            LeftOver(s, data, n + 1);
          }
          return n + 1;
        }
        n := n + 1;
      }
      assert data[..n] == data;
      FoldKeepsInv(s, data);
      Deliver(HeaderField, marks.field, data, n);
      Deliver(HeaderValue, marks.value, data, n);
      Deliver(Url, marks.url, data, n);
      Deliver(Body, marks.body, data, n);
    }

    /** One turn of the main loop: the position of the last byte consumed, and
        whether to return at once because of an upgrade. */
    method Consume(ghost s: Run, data: seq<Byte>, i: nat, before: Marks) returns (p: nat, marks: Marks, stop: bool)
      requires i < |data| < UINT32 - MAX_HEADER_SIZE
      requires At(s, data, i, f, Canon(events), before) && StateInv(f)
      modifies this
      ensures i <= p < |data|
      ensures f.errno != CHPE_OK ==> !Accepted(Fold(s, data))
      ensures f.errno == CHPE_OK && !stop ==> At(s, data, p + 1, f, Canon(events), marks)
      ensures f.errno == CHPE_OK && stop ==>
        Fold(s, data[..p + 1]) == Run(f, Canon(events), true, false)
    {
      hide Next, Events, Fold, StateInv, Counted;
      p, marks, stop := i, before, false;
      ghost var g := f;
      OrdinaryByte(s, data, i, f, Canon(events), before);
      CountedIsReady(f);
      CountedKeeps(f);
      f := Counted(f);
      if f.errno != CHPE_OK {
        RefusedPrefix(s, data, i + 1);
        return;
      }
      if f.state == S_HEADER_FIELD {
        TracksStarts(s, data, i, g, Pending(Canon(events), before, data, i));
        p, marks := ScanField(s, data, i, before);
      } else if f.state == S_HEADER_VALUE {
        TracksStarts(s, data, i, g, Pending(Canon(events), before, data, i));
        p, marks := ScanValue(s, data, i, before);
      } else if f.state == S_BODY_IDENTITY || f.state == S_CHUNK_DATA {
        p, marks := TakeBytes(s, data, i, before);
      } else if f.state == S_BODY_IDENTITY_EOF {
        EofBulk(s, data, i, f, Canon(events), before.body);
        marks := if before.body.None? then before.(body := Some(i)) else before;
        p := |data| - 1;
        assert data[..p + 1] == data;
      } else {
        ghost var c := f;
        marks := AtByte(Run(f, Pending(Canon(events), before, data, i), false, false), data, i, before);
        if f.errno != CHPE_OK {
          RefusedPrefix(s, data, i + 1);
        } else {
          stop := f.state == S_HEADERS_DONE && f.upgrade;
          assert stop == Stops(c, data[i]);
        }
      }
    }

    /** Split invariance: the pieces are accepted exactly when the bytewise run
        accepts each, from where the one before ended; for an input that is accepted
        as a whole, that is the run over the whole, whatever the pieces are. */
    method Feed(pieces: seq<seq<Byte>>) returns (ok: bool)
      requires Valid() && f.errno == CHPE_OK
      requires forall k :: 0 <= k < |pieces| ==> 0 < |pieces[k]| < UINT32 - MAX_HEADER_SIZE
      modifies this
      ensures var s := InPieces(Run(old(f), Canon(old(events)), false, false), pieces);
              && (ok <==> Accepted(s))
              && (ok ==> f == s.p && Canon(events) == s.log)
      ensures var s := Fold(Run(old(f), Canon(old(events)), false, false), Concat(pieces));
              Accepted(s) ==> ok && f == s.p && Canon(events) == s.log
      ensures Valid()
    {
      hide Fold, Next, Events, StateInv, Canon, Concat;
      ghost var s := Run(f, Canon(events), false, false);
      PiecesIff(s, pieces);
      assert pieces[..0] == [];
      for k := 0 to |pieces|
        invariant Valid() && f.errno == CHPE_OK
        invariant var t := InPieces(s, pieces[..k]); t == Run(f, Canon(events), t.stopped, false)
      {
        assert pieces[..k + 1][..k] == pieces[..k];
        var n := Execute(pieces[k]);
        if f.errno != CHPE_OK || n != |pieces[k]| {
          PiecesRefused(s, pieces, k + 1);
          return false;
        }
      }
      assert pieces[..|pieces|] == pieces;
      ok := true;
    }

    /** HTTPParser::clear: ready for the next message on the connection. */
    method Clear()
      requires Valid() && f.errno == CHPE_OK
      modifies this
      ensures f == Go(old(f), S_START_REQ) && events == old(events) && Valid()
    {
      GoKeepsInv(f, S_START_REQ);
      f := Go(f, S_START_REQ);
    }
  }
}
