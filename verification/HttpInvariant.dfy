/** What holds between any two bytes, for every input: the properties the
    parser asserts, and the framing rules of section 3.3.3 of RFC 7230. */
module HttpInvariant {
  import opened HttpTypes
  import opened HttpStep

  /** The sub-states a header name can be in. */
  predicate NameHs(hs: HeaderState) {
    hs <= H_CONTENT_LENGTH || hs == H_TRANSFER_ENCODING || hs == H_UPGRADE
  }

  /** The sub-states a header value can be in. */
  predicate ValueHs(hs: HeaderState) {
    hs == H_GENERAL || hs == H_CONNECTION || hs == H_CONTENT_LENGTH_NUM || hs == H_CONTENT_LENGTH_WS
    || H_MATCHING_TRANSFER_ENCODING_TOKEN_START <= hs <= H_CONNECTION_CLOSE
  }

  /** The sub-states that only a Transfer-Encoding header leads to. */
  predicate TransferHs(hs: HeaderState) {
    hs == H_TRANSFER_ENCODING || hs == H_TRANSFER_ENCODING_CHUNKED
    || H_MATCHING_TRANSFER_ENCODING_TOKEN_START <= hs <= H_MATCHING_TRANSFER_ENCODING_TOKEN
  }

  /** The largest value the matcher index can have in a sub-state: the next
      comparison stays inside the word and below the five-bit limit. */
  function IndexLimit(hs: HeaderState): nat {
    match hs
    case H_C | H_MATCHING_TRANSFER_ENCODING_TOKEN_START => 0
    case H_CO => 1
    case H_CON => 2
    case H_MATCHING_CONNECTION => 8  // one before the last of "connection"
    case H_MATCHING_PROXY_CONNECTION => 14  // one before the last of "proxy-connection"
    case H_MATCHING_CONTENT_LENGTH => 12  // one before the last of "content-length"
    case H_MATCHING_TRANSFER_ENCODING => 15  // one before the last of "transfer-encoding"
    case H_MATCHING_UPGRADE => 5  // one before the last of "upgrade"
    case H_MATCHING_TRANSFER_ENCODING_CHUNKED => 5  // one before the last of "chunked"
    case H_MATCHING_CONNECTION_KEEP_ALIVE => 8  // one before the last of "keep-alive"
    case H_MATCHING_CONNECTION_CLOSE => 3  // one before the last of "close"
    case _ => 31
  }

  /** Section 3.3.3 of RFC 7230: with the default settings, no body is read for
      a message that carried both framing headers. */
  predicate Framed(p: Parser) {
    p.lenient || p.allowChunkedLength || !(p.usesTE && p.flags.contentLength)
  }

  function MethodLength(m: Method): (n: nat)
    ensures 3 <= n <= 11
  {
    match m
    case M_GET | M_PUT | M_ACL => 3
    case M_HEAD | M_POST | M_COPY | M_LOCK | M_MOVE | M_BIND | M_LINK => 4
    case M_TRACE | M_PATCH | M_PURGE | M_MKCOL | M_MERGE => 5
    case M_DELETE | M_SEARCH | M_UNLOCK | M_REBIND | M_UNBIND | M_REPORT | M_NOTIFY | M_UNLINK | M_SOURCE => 6
    case M_CONNECT | M_OPTIONS => 7
    case M_PROPFIND | M_CHECKOUT | M_MSEARCH => 8
    case M_PROPPATCH | M_SUBSCRIBE => 9
    case M_MKACTIVITY | M_MKCALENDAR => 10
    case _ => 11
  }

  lemma MethodLengthIsExact(m: Method)
    ensures |MethodString(m)| == MethodLength(m)
  {
  }

  /** What each state promises about the other fields. */
  predicate StateOk(p: Parser) {
    match p.state
    case S_DEAD | S_HEADER_VALUE_START => false
    case S_REQ_METHOD => p.index <= MethodLength(p.mthd)
    case S_HEADER_FIELD | S_HEADER_VALUE_DISCARD_WS | S_HEADER_VALUE_DISCARD_WS_ALMOST_DONE | S_HEADER_VALUE_DISCARD_LWS =>
      NameHs(p.hs) && p.index <= IndexLimit(p.hs) && (TransferHs(p.hs) ==> p.usesTE)
    case S_HEADER_VALUE | S_HEADER_ALMOST_DONE | S_HEADER_VALUE_LWS =>
      && ValueHs(p.hs) && p.index <= IndexLimit(p.hs) && (TransferHs(p.hs) ==> p.usesTE)
      && (p.hs == H_CONTENT_LENGTH_NUM || p.hs == H_CONTENT_LENGTH_WS ==> p.contentLength < ULLONG_MAX)
    case S_HEADERS_DONE => Framed(p)
    case S_CHUNK_SIZE_START => Framed(p) && p.flags.chunked && p.nread == 0
    case S_CHUNK_SIZE | S_CHUNK_PARAMETERS | S_CHUNK_SIZE_ALMOST_DONE =>
      Framed(p) && p.flags.chunked && p.contentLength < ULLONG_MAX
    case S_CHUNK_DATA => Framed(p) && p.flags.chunked && 0 < p.contentLength < ULLONG_MAX
    case S_CHUNK_DATA_ALMOST_DONE => Framed(p) && p.flags.chunked && p.contentLength == 0
    case S_CHUNK_DATA_DONE => Framed(p) && p.flags.chunked
    case S_BODY_IDENTITY => Framed(p) && 0 < p.contentLength < ULLONG_MAX
    case S_BODY_IDENTITY_EOF | S_MESSAGE_DONE => Framed(p)
    case _ => 1 <= p.state <= S_HEADERS_DONE
  }

  predicate StateInv(p: Parser) {
    && p.nread <= MAX_HEADER_SIZE
    && p.contentLength <= ULLONG_MAX
    && !p.flags.skipBody
    && (p.flags.chunked ==> p.usesTE)
    && StateOk(p)
  }

  predicate Ok(p: Parser) { p.errno == CHPE_OK ==> StateInv(p) }

  // One lemma for each group of states.

  /** States that promise nothing about the other fields. */
  predicate Plain(st: State) {
    st == S_START_REQ || st == S_REQ_SPACES_BEFORE_URL || S_REQ_SCHEMA <= st <= S_HEADER_FIELD_START
    || st == S_HEADERS_ALMOST_DONE
  }

  lemma GoKeepsInv(p: Parser, st: State)
    requires StateInv(p) && Plain(st)
    ensures StateInv(Go(p, st))
  {
  }

  lemma StartReqKeepsInv(p: Parser, ch: Byte)
    requires p.state == S_START_REQ && StateInv(p)
    ensures Ok(OnStartReq(p, ch))
  {
  }

  lemma RedirectFits(m: Method, index: nat, ch: char)
    requires Redirect(m, index, ch).Some?
    ensures index + 1 <= MethodLength(Redirect(m, index, ch).value)
  {
  }

  /** The method matcher never reads past the terminating NUL. */
  lemma MethodNextFits(m: Method, index: nat, ch: char)
    requires index <= MethodLength(m)
    requires MethodNext(m, index, ch).Some? && !MethodNext(m, index, ch).value.1
    ensures index + 1 <= MethodLength(MethodNext(m, index, ch).value.0)
  {
    MethodLengthIsExact(m);
    if Redirect(m, index, ch).Some? {
      RedirectFits(m, index, ch);
    }
  }

  lemma MethodKeepsInv(p: Parser, ch: Byte)
    requires p.state == S_REQ_METHOD && StateInv(p)
    ensures Ok(OnReqMethod(p, ch))
  {
    match MethodNext(p.mthd, p.index, ch)
    case None => assert OnReqMethod(p, ch).errno != CHPE_OK;
    case Some((m, over)) =>
      if !over {
        MethodNextFits(p.mthd, p.index, ch);
      }
  }

  lemma UrlByteKeepsInv(p: Parser, from: State, ch: Byte)
    requires StateInv(p)
    ensures Ok(UrlByte(p, from, ch))
  {
    if ParseUrlChar(from, ch) != S_DEAD {
      GoKeepsInv(p, ParseUrlChar(from, ch));
    }
  }

  lemma UrlKeepsInv(p: Parser, ch: Byte)
    requires StateInv(p) && UrlState(p.state)
    ensures Ok(OnUrl(p, ch))
  {
    if ch == ' ' {
      GoKeepsInv(p, S_REQ_HTTP_START);
    } else if ch == CR || ch == LF {
      GoKeepsInv(p.(major := 0, minor := 9), if ch == CR then S_REQ_LINE_ALMOST_DONE else S_HEADER_FIELD_START);
    } else {
      UrlByteKeepsInv(p, p.state, ch);
    }
  }

  lemma VersionKeepsInv(p: Parser, ch: Byte)
    requires StateInv(p) && S_REQ_HTTP_START <= p.state <= S_REQ_LINE_ALMOST_DONE
    ensures Ok(OnVersion(p, ch))
  {
    hide VersionNext;
    match VersionNext(p.state, ch, p.mthd)
    case Refuse(e) => assert OnVersion(p, ch) == Fail(p, e);
    case To(st) => GoKeepsInv(p, st);
  }

  lemma RequestLineKeepsInv(p: Parser, ch: Byte)
    requires StateInv(p) && p.state <= S_REQ_LINE_ALMOST_DONE
    ensures Ok(OnRequestLine(p, ch))
  {
    match p.state
    case S_START_REQ => StartReqKeepsInv(p, ch);
    case S_REQ_METHOD => MethodKeepsInv(p, ch);
    case S_REQ_SPACES_BEFORE_URL => UrlByteKeepsInv(p, UrlStart(p.mthd), ch);
    case S_REQ_SCHEMA | S_REQ_SCHEMA_SLASH | S_REQ_SCHEMA_SLASH_SLASH | S_REQ_SERVER_START =>
      UrlByteKeepsInv(p, p.state, ch);
    case S_REQ_SERVER | S_REQ_SERVER_WITH_AT | S_REQ_PATH | S_REQ_QUERY_STRING_START | S_REQ_QUERY_STRING =>
      UrlKeepsInv(p, ch);
    case _ => VersionKeepsInv(p, ch);
  }

  lemma HeadersDoneKeepsInv(p: Parser, ch: Byte)
    requires p.state == S_HEADERS_DONE && StateInv(p)
    ensures Ok(OnHeadersDone(p, ch))
  {
  }

  lemma HeadersAlmostDoneKeepsInv(p: Parser, ch: Byte)
    requires p.state == S_HEADERS_ALMOST_DONE && StateInv(p)
    ensures Ok(OnHeadersAlmostDone(p, ch))
  {
    if !FramingConflict(p) {
      HeadersDoneKeepsInv(HeadersOver(p), ch);
    }
  }

  lemma HeaderFieldStartKeepsInv(p: Parser, ch: Byte)
    requires p.state == S_HEADER_FIELD_START && StateInv(p)
    ensures Ok(OnHeaderFieldStart(p, ch))
  {
    if ch == CR || ch == LF {
      GoKeepsInv(p, S_HEADERS_ALMOST_DONE);
      HeadersAlmostDoneKeepsInv(Go(p, S_HEADERS_ALMOST_DONE), ch);
    } else if Token(ch) != '\0' {
      var hs := FirstHs(Token(ch));
      assert NameHs(hs) && !TransferHs(hs);
    }
  }

  lemma FieldNextKeepsInv(m: Matcher, ch: char, c: char)
    requires NameHs(m.hs) && m.index <= IndexLimit(m.hs) && c != '\0'
    ensures var n := FieldNext(m, ch, c);
            && NameHs(n.hs) && n.index <= IndexLimit(n.hs)
            && (TransferHs(n.hs) && !TransferHs(m.hs) ==>
                m.hs == H_MATCHING_TRANSFER_ENCODING && n.hs == H_TRANSFER_ENCODING)
  {
  }

  lemma HeaderFieldKeepsInv(p: Parser, ch: Byte)
    requires p.state == S_HEADER_FIELD && StateInv(p)
    ensures Ok(OnHeaderField(p, ch))
  {
    hide Token, FieldNext;
    if Token(ch) != '\0' {
      FieldNextKeepsInv(Matcher(p.hs, p.index), ch, Token(ch));
    }
  }

  lemma ValueStartFits(hs: HeaderState, c: char)
    ensures var next := ValueStartHs(hs, c);
            && ValueHs(next) && next != H_CONTENT_LENGTH_NUM && (TransferHs(next) ==> TransferHs(hs))
            && (next == H_CONTENT_LENGTH_WS ==> hs == H_CONTENT_LENGTH_WS)
    ensures ValueHs(H_CONTENT_LENGTH_NUM) && !TransferHs(H_CONTENT_LENGTH_NUM)
  {
  }

  /** What the state of a value promises, in one piece. */
  lemma InValueIsOk(p: Parser)
    requires p.state == S_HEADER_VALUE && p.index == 0 && p.nread <= MAX_HEADER_SIZE && p.contentLength <= ULLONG_MAX
    requires !p.flags.skipBody && (p.flags.chunked ==> p.usesTE)
    requires ValueHs(p.hs) && (TransferHs(p.hs) ==> p.usesTE)
    requires p.hs == H_CONTENT_LENGTH_NUM || p.hs == H_CONTENT_LENGTH_WS ==> p.contentLength < ULLONG_MAX
    ensures StateInv(p)
  {
    hide ValueHs, TransferHs;
  }

  lemma InvParts(p: Parser)
    requires StateInv(p)
    ensures p.nread <= MAX_HEADER_SIZE && p.contentLength <= ULLONG_MAX && !p.flags.skipBody
    ensures p.flags.chunked ==> p.usesTE
  {
    hide StateOk;
  }

  lemma StartedFields(p: Parser, ch: Byte)
    ensures var q := OnValueStart(p, ch);
            q.errno == CHPE_OK ==>
              && q.state == S_HEADER_VALUE && q.index == 0 && q.nread == p.nread && q.usesTE == p.usesTE
              && q.flags.skipBody == p.flags.skipBody && q.flags.chunked == p.flags.chunked
              && q.hs == (if p.hs == H_CONTENT_LENGTH then H_CONTENT_LENGTH_NUM else ValueStartHs(p.hs, Lower(ch)))
              && q.contentLength == if p.hs == H_CONTENT_LENGTH then Digit(ch) else p.contentLength
  {
    hide ValueStartHs, Lower, Digit;
  }

  lemma DigitFits(ch: Byte)
    ensures Digit(ch) < 10
  {
  }

  lemma ValueStartKeepsInv(p: Parser, ch: Byte)
    requires StateInv(p.(state := S_HEADER_FIELD_START))
    requires TransferHs(p.hs) ==> p.usesTE
    requires p.hs == H_CONTENT_LENGTH_WS ==> p.contentLength < ULLONG_MAX
    ensures Ok(OnValueStart(p, ch))
  {
    hide StateInv, ValueStartHs, ValueHs, TransferHs, OnValueStart;
    StartedFields(p, ch);
    InvParts(p.(state := S_HEADER_FIELD_START));
    ValueStartFits(p.hs, Lower(ch));
    DigitFits(ch);
    var q := OnValueStart(p, ch);
    if q.errno == CHPE_OK {
      InValueIsOk(q);
    }
  }

  lemma DiscardLwsKeepsInv(p: Parser, ch: Byte)
    requires StateInv(p) && p.state == S_HEADER_VALUE_DISCARD_LWS
    ensures Ok(OnDiscardLws(p, ch))
  {
    GoKeepsInv(p, S_HEADER_FIELD_START);
    HeaderFieldStartKeepsInv(Go(p, S_HEADER_FIELD_START), ch);
  }

  /** A Content-Length digit is taken exactly or refused: the value never wraps
      and never reaches the one that means "no length". */
  lemma LengthDigitIsExact(length: nat, digit: nat)
    requires digit < 10
    ensures match LengthDigit(length, digit)
            case Length(n) => n == length * 10 + digit < ULLONG_MAX
            case Overflow => length * 10 + digit > ULLONG_MAX - 10
  {
  }

  lemma SizeDigitIsExact(length: nat, digit: nat)
    requires digit < 16
    ensures match SizeDigit(length, digit)
            case Length(n) => n == length * 16 + digit < ULLONG_MAX
            case Overflow => length * 16 + digit > ULLONG_MAX - 16
  {
  }

  lemma ValueNextKeepsInv(m: Matcher, ch: Byte)
    requires ValueHs(m.hs) && m.index <= IndexLimit(m.hs)
    ensures match ValueNext(m, ch)
            case None => m.hs == H_CONTENT_LENGTH_NUM || m.hs == H_CONTENT_LENGTH_WS
            case Some(n) =>
              && ValueHs(n.hs) && n.index <= IndexLimit(n.hs)
              && (TransferHs(n.hs) ==> TransferHs(m.hs))
              && (n.hs == H_CONTENT_LENGTH_NUM ==> m.hs == H_CONTENT_LENGTH_NUM && IsNum(ch))
              && (n.hs == H_CONTENT_LENGTH_WS ==> m.hs == H_CONTENT_LENGTH_NUM || m.hs == H_CONTENT_LENGTH_WS)
  {
  }

  lemma ValueByteKeepsInv(p: Parser, ch: Byte)
    requires p.state == S_HEADER_VALUE && StateInv(p)
    ensures Ok(ValueByte(p, ch)) && ValueByte(p, ch).state == p.state
  {
    ValueNextKeepsInv(Matcher(p.hs, p.index), ch);
    LengthDigitIsExact(p.contentLength, Digit(ch));
  }

  /** The size count does not matter to a value. */
  lemma ByteNotCounted(p: Parser, n: nat, ch: Byte)
    ensures ValueByte(p.(nread := n), ch) == ValueByte(p, ch).(nread := n)
    ensures ValueByte(p, ch).state == p.state
  {
    hide ValueNext, LengthDigit, Digit;
    var q := p.(nread := n);
    assert ValueNext(Matcher(q.hs, q.index), ch) == ValueNext(Matcher(p.hs, p.index), ch);
    match ValueNext(Matcher(p.hs, p.index), ch)
    case None =>
    case Some(m) =>
      match LengthDigit(p.contentLength, Digit(ch))
      case Overflow =>
      case Length(_) =>
  }

  lemma ValueLwsKeepsInv(p: Parser, ch: Byte)
    requires p.state == S_HEADER_VALUE_LWS && StateInv(p)
    ensures Ok(OnValueLws(p, ch))
  {
    if ch == ' ' || ch == '\t' {
      ValueStartKeepsInv(FoldLine(p), ch);
    } else {
      HeaderFieldStartKeepsInv(EndHeader(p), ch);
    }
  }

  lemma DiscardWsKeepsInv(p: Parser, ch: Byte)
    requires StateInv(p) && p.state == S_HEADER_VALUE_DISCARD_WS
    ensures Ok(OnDiscardWs(p, ch))
  {
    if ch == ' ' || ch == '\t' || ch == CR || ch == LF {
      assert OnDiscardWs(p, ch) == Go(p, OnDiscardWs(p, ch).state);
    } else {
      ValueStartKeepsInv(p, ch);
    }
  }

  lemma DiscardWsAlmostDoneKeepsInv(p: Parser, ch: Byte)
    requires StateInv(p) && p.state == S_HEADER_VALUE_DISCARD_WS_ALMOST_DONE
    ensures Ok(OnDiscardWsAlmostDone(p, ch))
  {
  }

  lemma AlmostDoneKeepsInv(p: Parser)
    requires p.state == S_HEADER_VALUE && StateInv(p)
    ensures Ok(Go(p, S_HEADER_ALMOST_DONE)) && Ok(Go(p, S_HEADER_VALUE_LWS))
  {
  }

  lemma HeaderValueKeepsInv(p: Parser, ch: Byte)
    requires p.state == S_HEADER_VALUE && StateInv(p)
    ensures Ok(OnHeaderValue(p, ch))
  {
    hide ValueByte, IsValueByte, IsHeaderChar;
    AlmostDoneKeepsInv(p);
    ValueByteKeepsInv(p, ch);
  }

  lemma HeaderAlmostDoneKeepsInv(p: Parser, ch: Byte)
    requires p.state == S_HEADER_ALMOST_DONE && StateInv(p)
    ensures Ok(OnHeaderAlmostDone(p, ch))
  {
  }

  lemma HeaderKeepsInv(p: Parser, ch: Byte)
    requires StateInv(p) && S_HEADER_FIELD_START <= p.state <= S_HEADER_ALMOST_DONE
    ensures Ok(OnHeader(p, ch))
  {
    match p.state
    case S_HEADER_FIELD_START => HeaderFieldStartKeepsInv(p, ch);
    case S_HEADER_FIELD => HeaderFieldKeepsInv(p, ch);
    case S_HEADER_VALUE_DISCARD_WS => DiscardWsKeepsInv(p, ch);
    case S_HEADER_VALUE_DISCARD_WS_ALMOST_DONE => DiscardWsAlmostDoneKeepsInv(p, ch);
    case S_HEADER_VALUE_DISCARD_LWS => DiscardLwsKeepsInv(p, ch);
    case S_HEADER_VALUE => HeaderValueKeepsInv(p, ch);
    case S_HEADER_VALUE_LWS => ValueLwsKeepsInv(p, ch);
    case _ => HeaderAlmostDoneKeepsInv(p, ch);
  }

  lemma ChunkSizeKeepsInv(p: Parser, ch: Byte)
    requires p.state == S_CHUNK_SIZE && StateInv(p)
    ensures Ok(OnChunkSize(p, ch))
  {
    hide Unhex;
    if Unhex(ch) != -1 {
      SizeDigitIsExact(p.contentLength, Unhex(ch));
    }
  }

  /** The invariant with the size check done: a chunk size begins with one
      byte counted. */
  predicate Ready(p: Parser) {
    p.errno == CHPE_OK
    && (if p.state == S_CHUNK_SIZE_START then p.nread == 1 && StateInv(p.(nread := 0)) else StateInv(p))
  }

  lemma CountedIsReady(p: Parser)
    requires StateInv(p) && p.errno == CHPE_OK
    ensures Counted(p).errno == CHPE_OK ==> Ready(Counted(p))
    ensures p.nread <= MAX_HEADER_SIZE
  {
    if ParsingHeader(p.state) && p.nread < MAX_HEADER_SIZE {
      assert Counted(p) == p.(nread := p.nread + 1);
    }
  }

  lemma ChunkEdgesKeepInv(p: Parser, ch: Byte)
    requires Ready(p)
    ensures p.state == S_CHUNK_SIZE_START ==> Ok(OnChunkSizeStart(p, ch))
    ensures p.state == S_CHUNK_PARAMETERS ==> Ok(OnChunkParameters(p, ch))
    ensures p.state == S_CHUNK_SIZE_ALMOST_DONE ==> Ok(OnChunkSizeAlmostDone(p, ch))
  {
  }

  lemma BodyDataKeepsInv(p: Parser, ch: Byte)
    requires StateInv(p)
    ensures p.state == S_CHUNK_DATA ==> Ok(OnChunkData(p, ch))
    ensures p.state == S_CHUNK_DATA_ALMOST_DONE ==> Ok(OnChunkDataAlmostDone(p, ch))
    ensures p.state == S_CHUNK_DATA_DONE ==> Ok(OnChunkDataDone(p, ch))
    ensures p.state == S_BODY_IDENTITY ==> Ok(OnBodyIdentity(p, ch))
  {
  }

  lemma FramingKeepsInv(p: Parser, ch: Byte)
    requires Ready(p) && S_CHUNK_SIZE_START <= p.state <= S_MESSAGE_DONE
    ensures Ok(OnFraming(p, ch))
  {
    match p.state
    case S_CHUNK_SIZE_START | S_CHUNK_PARAMETERS | S_CHUNK_SIZE_ALMOST_DONE => ChunkEdgesKeepInv(p, ch);
    case S_CHUNK_SIZE => ChunkSizeKeepsInv(p, ch);
    case S_HEADERS_ALMOST_DONE => HeadersAlmostDoneKeepsInv(p, ch);
    case S_HEADERS_DONE => HeadersDoneKeepsInv(p, ch);
    case S_CHUNK_DATA | S_CHUNK_DATA_ALMOST_DONE | S_CHUNK_DATA_DONE | S_BODY_IDENTITY => BodyDataKeepsInv(p, ch);
    case _ => assert OnFraming(p, ch) == p;
  }

  lemma NextKeepsInv(p: Parser, ch: Byte)
    requires Ready(p)
    ensures Ok(Next(p, ch))
  {
    hide OnRequestLine, OnHeader, OnFraming;
    if p.state <= S_REQ_LINE_ALMOST_DONE {
      RequestLineKeepsInv(p, ch);
    } else if p.state <= S_HEADER_ALMOST_DONE {
      HeaderKeepsInv(p, ch);
    } else {
      FramingKeepsInv(p, ch);
    }
  }

  // The callback log.

  /** Which data was delivered last, in the states where more of the same kind
      can follow it. */
  predicate LogInv(st: State, log: Log) {
    && (UrlState(st) ==> EndsIn(log, Url))
    && (st == S_HEADER_FIELD ==> EndsIn(log, HeaderField))
    && (st == S_HEADER_VALUE ==> EndsIn(log, HeaderValue))
  }

  predicate Inv(s: Run) {
    s.p.errno == CHPE_OK ==> StateInv(s.p) && LogInv(s.p.state, s.log)
  }

  /** A byte that leads to one of those states was delivered by itself, or was
      the last of its kind. */
  predicate EventsFit(p: Parser, ch: Byte) {
    var q := Next(p, ch);
    q.errno == CHPE_OK ==>
      && (UrlState(q.state) ==> Events(p, ch) == [Data(Url, [ch])])
      && (q.state == S_HEADER_FIELD ==>
          Events(p, ch) == [Data(HeaderField, [ch])]
          || Events(p, ch) == [Data(HeaderValue, []), Data(HeaderField, [ch])])
      && (q.state == S_HEADER_VALUE ==> Events(p, ch) == [Data(HeaderValue, [ch])])
  }

  lemma RequestLineEventsFit(p: Parser, ch: Byte)
    requires StateInv(p) && p.state <= S_REQ_LINE_ALMOST_DONE
    ensures EventsFit(p, ch)
  {
    assert Next(p, ch) == OnRequestLine(p, ch);
    match p.state
    case S_DEAD =>
    case S_START_REQ => assert Next(p, ch) == OnStartReq(p, ch);
    case S_REQ_METHOD => assert Next(p, ch) == OnReqMethod(p, ch);
    case S_REQ_SPACES_BEFORE_URL => assert Next(p, ch) == OnUrlStart(p, ch);
    case st => if st >= S_REQ_HTTP_START { assert Next(p, ch) == OnVersion(p, ch); }
  }

  predicate InValue(st: State) {
    st == S_HEADER_VALUE || st == S_HEADER_ALMOST_DONE || st == S_HEADER_VALUE_LWS
  }

  lemma FieldStartFits(p: Parser, ch: Byte)
    requires p.state == S_HEADER_FIELD_START && p.errno == CHPE_OK
    ensures var q := OnHeaderFieldStart(p, ch);
            q.errno == CHPE_OK ==>
              (q.state == S_HEADER_FIELD ==> FieldStartEvents(p, ch) == [Data(HeaderField, [ch])])
  {
  }

  lemma ValueEventsFit(p: Parser, ch: Byte)
    requires p.errno == CHPE_OK
    ensures p.state == S_HEADER_FIELD || p.state == S_HEADER_VALUE || p.state == S_HEADER_VALUE_DISCARD_WS
            || p.state == S_HEADER_VALUE_DISCARD_WS_ALMOST_DONE || p.state == S_HEADER_ALMOST_DONE
            ==> EventsFit(p, ch)
  {
    hide Token, FieldNext, IsHeaderChar, HeaderFlags, OnValueStart, ValueNext;
    StartedFields(p, ch);
    match p.state
    case S_HEADER_FIELD => assert Next(p, ch) == OnHeaderField(p, ch);
    case S_HEADER_VALUE => assert Next(p, ch) == OnHeaderValue(p, ch);
    case S_HEADER_VALUE_DISCARD_WS => assert Next(p, ch) == OnDiscardWs(p, ch);
    case _ =>
  }

  lemma HeaderEventsFit(p: Parser, ch: Byte)
    requires StateInv(p) && p.errno == CHPE_OK && S_HEADER_FIELD_START <= p.state <= S_HEADER_ALMOST_DONE
    ensures EventsFit(p, ch)
  {
    match p.state
    case S_HEADER_FIELD_START =>
      FieldStartFits(p, ch);
      assert Next(p, ch) == OnHeaderFieldStart(p, ch);
    case S_HEADER_VALUE_DISCARD_LWS =>
      FieldStartFits(Go(p, S_HEADER_FIELD_START), ch);
      assert Next(p, ch) == OnDiscardLws(p, ch);
    case S_HEADER_VALUE_LWS =>
      FieldStartFits(EndHeader(p), ch);
      assert Next(p, ch) == OnValueLws(p, ch);
    case _ => ValueEventsFit(p, ch);
  }

  lemma FramingEventsFit(p: Parser, ch: Byte)
    requires p.errno == CHPE_OK && S_CHUNK_SIZE_START <= p.state <= S_MESSAGE_DONE
    ensures EventsFit(p, ch)
  {
    assert Next(p, ch) == OnFraming(p, ch);
  }

  lemma EventsAlwaysFit(p: Parser, ch: Byte)
    requires Ready(p)
    ensures EventsFit(p, ch)
  {
    if p.state <= S_REQ_LINE_ALMOST_DONE {
      RequestLineEventsFit(p, ch);
    } else if p.state <= S_HEADER_ALMOST_DONE {
      HeaderEventsFit(p, ch);
    } else {
      FramingEventsFit(p, ch);
    }
  }

  lemma EmitOne(log: Log, e: Event)
    ensures EmitAll(log, [e]) == Emit(log, e)
  {
    assert [e][..0] == [];
  }

  lemma EmitTwo(log: Log, e: Event, f: Event)
    ensures EmitAll(log, [e, f]) == Emit(Emit(log, e), f)
  {
    assert [e, f][..1] == [e];
    EmitOne(log, e);
  }

  /** The invariant over every byte from every state it holds in. */
  lemma StepKeepsInv(s: Run, ch: Byte)
    requires Inv(s)
    ensures Inv(Step(s, ch))
  {
    hide Next, Events, StateInv, Counted;
    if Accepted(s) && !s.stopped && Counted(s.p).errno == CHPE_OK {
      var c := Counted(s.p);
      CountedIsReady(s.p);
      NextKeepsInv(c, ch);
      EventsAlwaysFit(c, ch);
      EmitOne(s.log, Data(Url, [ch]));
      EmitOne(s.log, Data(HeaderField, [ch]));
      EmitOne(s.log, Data(HeaderValue, [ch]));
      EmitTwo(s.log, Data(HeaderValue, []), Data(HeaderField, [ch]));
    }
  }

  lemma {:induction false} FoldKeepsInv(s: Run, data: seq<Byte>)
    requires Inv(s)
    ensures Inv(Fold(s, data))
  {
    if data != [] {
      FoldKeepsInv(s, data[..|data| - 1]);
      StepKeepsInv(Fold(s, data[..|data| - 1]), data[|data| - 1]);
    }
  }
}
