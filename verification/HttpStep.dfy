/** What one input byte does to the parser: the branches of the state switch
    of http_parser_execute, with a re-executed state as a direct call. The
    struct fields and the callbacks are given separately. */
module HttpStep {
  import opened HttpTypes

  function Fail(p: Parser, e: Errno): Parser { p.(errno := e) }

  function Go(p: Parser, st: State): Parser { p.(state := st) }

  /** `v` more bytes on the header size count, in 32-bit arithmetic. */
  function CountHeader(p: Parser, v: nat): Parser {
    var n := (p.nread + v) % UINT32;
    if n > MAX_HEADER_SIZE then p.(nread := n, errno := CHPE_HEADER_OVERFLOW) else p.(nread := n)
  }

  /** The size check in front of the switch. */
  function Counted(p: Parser): Parser {
    if ParsingHeader(p.state) then CountHeader(p, 1) else p
  }

  /** The switch: the fields after byte `ch`. */
  function Next(p: Parser, ch: Byte): Parser {
    if p.state <= S_REQ_LINE_ALMOST_DONE then OnRequestLine(p, ch)
    else if p.state <= S_HEADER_ALMOST_DONE then OnHeader(p, ch)
    else OnFraming(p, ch)
  }

  function OnRequestLine(p: Parser, ch: Byte): (q: Parser)
    requires p.state <= S_REQ_LINE_ALMOST_DONE
    ensures q.state <= S_HEADER_FIELD_START
  {
    if p.state == S_DEAD then (if ch == CR || ch == LF then p else Fail(p, CHPE_CLOSED_CONNECTION))
    else if p.state == S_START_REQ then OnStartReq(p, ch)
    else if p.state == S_REQ_METHOD then OnReqMethod(p, ch)
    else if p.state == S_REQ_SPACES_BEFORE_URL then OnUrlStart(p, ch)
    else if S_REQ_SCHEMA <= p.state <= S_REQ_SERVER_START then OnUrlPrefix(p, ch)
    else if S_REQ_SERVER <= p.state <= S_REQ_QUERY_STRING then OnUrl(p, ch)
    else if p.state >= S_REQ_HTTP_START then OnVersion(p, ch)
    else Fail(p, CHPE_INVALID_INTERNAL_STATE)
  }

  function OnHeader(p: Parser, ch: Byte): Parser {
    match p.state
    case S_HEADER_FIELD_START => OnHeaderFieldStart(p, ch)
    case S_HEADER_FIELD => OnHeaderField(p, ch)
    case S_HEADER_VALUE_DISCARD_WS => OnDiscardWs(p, ch)
    case S_HEADER_VALUE_DISCARD_WS_ALMOST_DONE => OnDiscardWsAlmostDone(p, ch)
    case S_HEADER_VALUE_DISCARD_LWS => OnDiscardLws(p, ch)
    case S_HEADER_VALUE_START => OnValueStart(p, ch)
    case S_HEADER_VALUE => OnHeaderValue(p, ch)
    case S_HEADER_VALUE_LWS => OnValueLws(p, ch)
    case _ => OnHeaderAlmostDone(p, ch)
  }

  function OnFraming(p: Parser, ch: Byte): (q: Parser)
    requires p.state >= S_CHUNK_SIZE_START
    ensures q.state == S_HEADER_FIELD_START || q.state >= S_CHUNK_SIZE_START
  {
    match p.state
    case S_CHUNK_SIZE_START => OnChunkSizeStart(p, ch)
    case S_CHUNK_SIZE => OnChunkSize(p, ch)
    case S_CHUNK_PARAMETERS => OnChunkParameters(p, ch)
    case S_CHUNK_SIZE_ALMOST_DONE => OnChunkSizeAlmostDone(p, ch)
    case S_HEADERS_ALMOST_DONE => OnHeadersAlmostDone(p, ch)
    case S_HEADERS_DONE => OnHeadersDone(p, ch)
    case S_CHUNK_DATA => OnChunkData(p, ch)
    case S_CHUNK_DATA_ALMOST_DONE => OnChunkDataAlmostDone(p, ch)
    case S_CHUNK_DATA_DONE => OnChunkDataDone(p, ch)
    case S_BODY_IDENTITY => OnBodyIdentity(p, ch)
    case S_BODY_IDENTITY_EOF | S_MESSAGE_DONE => p
    case _ => Fail(p, CHPE_INVALID_INTERNAL_STATE)
  }

  // The request line.

  function FirstMethod(ch: char): Option<Method> {
    match ch
    case 'A' => Some(M_ACL)
    case 'B' => Some(M_BIND)
    case 'C' => Some(M_CONNECT)
    case 'D' => Some(M_DELETE)
    case 'G' => Some(M_GET)
    case 'H' => Some(M_HEAD)
    case 'L' => Some(M_LOCK)
    case 'M' => Some(M_MKCOL)
    case 'N' => Some(M_NOTIFY)
    case 'O' => Some(M_OPTIONS)
    case 'P' => Some(M_POST)
    case 'R' => Some(M_REPORT)
    case 'S' => Some(M_SUBSCRIBE)
    case 'T' => Some(M_TRACE)
    case 'U' => Some(M_UNLOCK)
    case _ => None
  }

  function OnStartReq(p: Parser, ch: Byte): Parser {
    if ch == CR || ch == LF then p
    else
      var q := p.(flags := NO_FLAGS, usesTE := false, contentLength := ULLONG_MAX);
      if !IsAlpha(ch) || FirstMethod(ch).None? then Fail(q, CHPE_INVALID_METHOD)
      else q.(mthd := FirstMethod(ch).value, index := 1, state := S_REQ_METHOD)
  }

  /** The method that takes over when byte `ch` at position `index` does not
      match the current guess. */
  function Redirect(m: Method, index: nat, ch: char): Option<Method> {
    match m
    case M_POST => if index == 1 && ch == 'U' then Some(M_PUT)
                 else if index == 1 && ch == 'A' then Some(M_PATCH)
                 else if index == 1 && ch == 'R' then Some(M_PROPFIND) else None
    case M_PUT => if index == 2 && ch == 'R' then Some(M_PURGE) else None
    case M_CONNECT => if index == 1 && ch == 'H' then Some(M_CHECKOUT)
                    else if index == 2 && ch == 'P' then Some(M_COPY) else None
    case M_MKCOL => if index == 1 && ch == 'O' then Some(M_MOVE)
                  else if index == 1 && ch == 'E' then Some(M_MERGE)
                  else if index == 1 && ch == '-' then Some(M_MSEARCH)
                  else if index == 2 && ch == 'A' then Some(M_MKACTIVITY)
                  else if index == 3 && ch == 'A' then Some(M_MKCALENDAR) else None
    case M_SUBSCRIBE => if index == 1 && ch == 'E' then Some(M_SEARCH)
                      else if index == 1 && ch == 'O' then Some(M_SOURCE) else None
    case M_REPORT => if index == 2 && ch == 'B' then Some(M_REBIND) else None
    case M_PROPFIND => if index == 4 && ch == 'P' then Some(M_PROPPATCH) else None
    case M_LOCK => if index == 1 && ch == 'I' then Some(M_LINK) else None
    case M_UNLOCK => if index == 2 && ch == 'S' then Some(M_UNSUBSCRIBE)
                   else if index == 2 && ch == 'B' then Some(M_UNBIND)
                   else if index == 3 && ch == 'I' then Some(M_UNLINK) else None
    case _ => None
  }

  function Bump(index: nat): nat { (index + 1) % 32 }

  /** What byte `ch` makes of a method name guessed to be `m` and matched up
      to `index`: the guess to go on with, and whether the name is over. */
  function MethodNext(m: Method, index: nat, ch: char): Option<(Method, bool)> {
    var expected := CharAt(MethodString(m), index);
    if ch == '\0' then None
    else if ch == ' ' && expected == '\0' then Some((m, true))
    else if ch == expected then Some((m, false))
    else if 'A' <= ch <= 'Z' || ch == '-' then
      match Redirect(m, index, ch)
      case Some(other) => Some((other, false))
      case None => None
    else None
  }

  function OnReqMethod(p: Parser, ch: Byte): Parser {
    match MethodNext(p.mthd, p.index, ch)
    case None => Fail(p, CHPE_INVALID_METHOD)
    case Some((m, over)) =>
      p.(mthd := m, index := Bump(p.index), state := if over then S_REQ_SPACES_BEFORE_URL else S_REQ_METHOD)
  }

  /** parse_url_char: the next state, or Dead for a byte the URL cannot hold. */
  function ParseUrlChar(st: State, ch: Byte): (next: State)
    ensures next == S_DEAD || UrlState(next)
  {
    if ch == ' ' || ch == CR || ch == LF || ch == '\t' || ch as int == 12 then S_DEAD
    else
      match st
      case S_REQ_SPACES_BEFORE_URL =>
        if ch == '/' || ch == '*' then S_REQ_PATH else if IsAlpha(ch) then S_REQ_SCHEMA else S_DEAD
      case S_REQ_SCHEMA => if IsAlpha(ch) then S_REQ_SCHEMA else if ch == ':' then S_REQ_SCHEMA_SLASH else S_DEAD
      case S_REQ_SCHEMA_SLASH => if ch == '/' then S_REQ_SCHEMA_SLASH_SLASH else S_DEAD
      case S_REQ_SCHEMA_SLASH_SLASH => if ch == '/' then S_REQ_SERVER_START else S_DEAD
      case S_REQ_SERVER_START | S_REQ_SERVER | S_REQ_SERVER_WITH_AT =>
        if st == S_REQ_SERVER_WITH_AT && ch == '@' then S_DEAD
        else if ch == '/' then S_REQ_PATH
        else if ch == '?' then S_REQ_QUERY_STRING_START
        else if ch == '@' then S_REQ_SERVER_WITH_AT
        else if IsUserinfoChar(ch) || ch == '[' || ch == ']' then S_REQ_SERVER
        else S_DEAD
      case S_REQ_PATH => if IsUrlChar(ch) then S_REQ_PATH else if ch == '?' then S_REQ_QUERY_STRING_START else S_DEAD
      case S_REQ_QUERY_STRING_START | S_REQ_QUERY_STRING =>
        if IsUrlChar(ch) || ch == '?' then S_REQ_QUERY_STRING else S_DEAD
      case _ => S_DEAD
  }

  function UrlByte(p: Parser, from: State, ch: Byte): Parser {
    var st := ParseUrlChar(from, ch);
    if st == S_DEAD then Fail(Go(p, S_DEAD), CHPE_INVALID_URL) else Go(p, st)
  }

  /** A CONNECT request names a server instead of a path. */
  function UrlStart(m: Method): State {
    if m == M_CONNECT then S_REQ_SERVER_START else S_REQ_SPACES_BEFORE_URL
  }

  function OnUrlStart(p: Parser, ch: Byte): Parser {
    if ch == ' ' then p else UrlByte(p, UrlStart(p.mthd), ch)
  }

  /** Inside the scheme or before the server name the URL cannot end. */
  function OnUrlPrefix(p: Parser, ch: Byte): Parser {
    if ch == ' ' || ch == CR || ch == LF then Fail(p, CHPE_INVALID_URL) else UrlByte(p, p.state, ch)
  }

  function OnUrl(p: Parser, ch: Byte): Parser {
    if ch == ' ' then Go(p, S_REQ_HTTP_START)
    else if ch == CR || ch == LF then
      // No version means HTTP/0.9, which has no method but GET.
      if p.mthd != M_GET then Fail(Go(p, S_DEAD), CHPE_INVALID_VERSION)
      else p.(major := 0, minor := 9, state := if ch == CR then S_REQ_LINE_ALMOST_DONE else S_HEADER_FIELD_START)
    else UrlByte(p, p.state, ch)
  }

  datatype Target = To(state: State) | Refuse(errno: Errno)

  /** Where byte `ch` leads inside "HTTP/d.d" and the end of the request line. */
  function VersionNext(st: State, ch: char, m: Method): (next: Target)
    requires S_REQ_HTTP_START <= st <= S_REQ_LINE_ALMOST_DONE
    ensures next.To? ==> S_REQ_HTTP_START <= next.state <= S_HEADER_FIELD_START
    ensures next.Refuse? ==> next.errno != CHPE_OK
  {
    match st
    case S_REQ_HTTP_START =>
      if ch == ' ' then To(st)
      else if ch == 'H' then To(S_REQ_HTTP_H)
      else if ch == 'I' && m == M_SOURCE then To(S_REQ_HTTP_I)
      else Refuse(CHPE_INVALID_CONSTANT)
    case S_REQ_HTTP_H => if ch != 'T' then Refuse(CHPE_STRICT) else To(S_REQ_HTTP_HT)
    case S_REQ_HTTP_HT => if ch != 'T' then Refuse(CHPE_STRICT) else To(S_REQ_HTTP_HTT)
    case S_REQ_HTTP_HTT => if ch != 'P' then Refuse(CHPE_STRICT) else To(S_REQ_HTTP_HTTP)
    case S_REQ_HTTP_I => if ch != 'C' then Refuse(CHPE_STRICT) else To(S_REQ_HTTP_IC)
    case S_REQ_HTTP_IC => if ch != 'E' then Refuse(CHPE_STRICT) else To(S_REQ_HTTP_HTTP)
    case S_REQ_HTTP_HTTP => if ch != '/' then Refuse(CHPE_STRICT) else To(S_REQ_HTTP_MAJOR)
    case S_REQ_HTTP_MAJOR => if !IsNum(ch) then Refuse(CHPE_INVALID_VERSION) else To(S_REQ_HTTP_DOT)
    case S_REQ_HTTP_DOT => if ch != '.' then Refuse(CHPE_INVALID_VERSION) else To(S_REQ_HTTP_MINOR)
    case S_REQ_HTTP_MINOR => if !IsNum(ch) then Refuse(CHPE_INVALID_VERSION) else To(S_REQ_HTTP_END)
    case S_REQ_HTTP_END =>
      if ch == CR then To(S_REQ_LINE_ALMOST_DONE)
      else if ch == LF then To(S_HEADER_FIELD_START)
      else Refuse(CHPE_INVALID_VERSION)
    case _ => if ch != LF then Refuse(CHPE_LF_EXPECTED) else To(S_HEADER_FIELD_START)
  }

  function OnVersion(p: Parser, ch: Byte): (q: Parser)
    requires S_REQ_HTTP_START <= p.state <= S_REQ_LINE_ALMOST_DONE
    ensures q.state <= S_HEADER_FIELD_START
  {
    match VersionNext(p.state, ch, p.mthd)
    case Refuse(e) => Fail(p, e)
    case To(st) =>
      if p.state == S_REQ_HTTP_MAJOR then p.(state := st, major := Digit(ch))
      else if p.state == S_REQ_HTTP_MINOR then p.(state := st, minor := Digit(ch))
      else Go(p, st)
  }

  function Digit(ch: char): nat { if IsNum(ch) then ch as int - '0' as int else 0 }

  // Header fields.

  /** The sub-state a header name with first token character `c` starts in. */
  function FirstHs(c: char): HeaderState {
    match c
    case 'c' => H_C
    case 'p' => H_MATCHING_PROXY_CONNECTION
    case 't' => H_MATCHING_TRANSFER_ENCODING
    case 'u' => H_MATCHING_UPGRADE
    case _ => H_GENERAL
  }

  function OnHeaderFieldStart(p: Parser, ch: Byte): (q: Parser)
    ensures q.state == p.state || q.state == S_HEADER_FIELD || q.state >= S_CHUNK_SIZE_START
  {
    if ch == CR then Go(p, S_HEADERS_ALMOST_DONE)
    else if ch == LF then OnHeadersAlmostDone(Go(p, S_HEADERS_ALMOST_DONE), ch)
    else if Token(ch) == '\0' then Fail(p, CHPE_INVALID_HEADER_TOKEN)
    else p.(index := 0, state := S_HEADER_FIELD, hs := FirstHs(Token(ch)))
  }

  /** The header sub-state and its position in the word being compared. */
  datatype Matcher = Matcher(hs: HeaderState, index: nat)

  /** One byte of a text that is being compared with `word`: `done` once the
      last byte has matched, `miss` at the first difference. */
  function MatchWord(m: Matcher, c: char, word: string, done: HeaderState, miss: HeaderState): Matcher {
    var i := Bump(m.index);
    if i > |word| || c != CharAt(word, i) then Matcher(miss, i)
    else if i == |word| - 1 then Matcher(done, i)
    else Matcher(m.hs, i)
  }

  /** The header-name matcher on a token byte, whose table entry is `c`. */
  function FieldNext(m: Matcher, ch: char, c: char): Matcher {
    match m.hs
    case H_GENERAL => m
    case H_C => Matcher(if c == 'o' then H_CO else H_GENERAL, Bump(m.index))
    case H_CO => Matcher(if c == 'n' then H_CON else H_GENERAL, Bump(m.index))
    case H_CON => Matcher(if c == 'n' then H_MATCHING_CONNECTION
                          else if c == 't' then H_MATCHING_CONTENT_LENGTH else H_GENERAL, Bump(m.index))
    case H_MATCHING_CONNECTION => MatchWord(m, c, "connection", H_CONNECTION, H_GENERAL)
    case H_MATCHING_PROXY_CONNECTION => MatchWord(m, c, "proxy-connection", H_CONNECTION, H_GENERAL)
    case H_MATCHING_CONTENT_LENGTH => MatchWord(m, c, "content-length", H_CONTENT_LENGTH, H_GENERAL)
    case H_MATCHING_TRANSFER_ENCODING => MatchWord(m, c, "transfer-encoding", H_TRANSFER_ENCODING, H_GENERAL)
    case H_MATCHING_UPGRADE => MatchWord(m, c, "upgrade", H_UPGRADE, H_GENERAL)
    case H_CONNECTION | H_CONTENT_LENGTH | H_TRANSFER_ENCODING | H_UPGRADE =>
      if ch != ' ' then Matcher(H_GENERAL, m.index) else m
    case _ => m
  }

  function FieldByte(p: Parser, ch: char, c: char): Parser {
    var m := FieldNext(Matcher(p.hs, p.index), ch, c);
    p.(hs := m.hs, index := m.index,
       usesTE := p.usesTE || (p.hs == H_MATCHING_TRANSFER_ENCODING && m.hs == H_TRANSFER_ENCODING))
  }

  function OnHeaderField(p: Parser, ch: Byte): Parser {
    if Token(ch) != '\0' then FieldByte(p, ch, Token(ch))
    else if ch == ':' then Go(p, S_HEADER_VALUE_DISCARD_WS)
    else Fail(p, CHPE_INVALID_HEADER_TOKEN)
  }

  // Header values.

  function OnDiscardWs(p: Parser, ch: Byte): Parser {
    if ch == ' ' || ch == '\t' then p
    else if ch == CR then Go(p, S_HEADER_VALUE_DISCARD_WS_ALMOST_DONE)
    else if ch == LF then Go(p, S_HEADER_VALUE_DISCARD_LWS)
    else OnValueStart(p, ch)
  }

  function OnDiscardWsAlmostDone(p: Parser, ch: Byte): Parser {
    if ch != LF then Fail(p, CHPE_STRICT) else Go(p, S_HEADER_VALUE_DISCARD_LWS)
  }

  /** A line that does not continue the value: the value was empty. */
  function OnDiscardLws(p: Parser, ch: Byte): Parser {
    if ch == ' ' || ch == '\t' then Go(p, S_HEADER_VALUE_DISCARD_WS)
    else OnHeaderFieldStart(Go(p, S_HEADER_FIELD_START), ch)
  }

  /** The sub-state after the first byte of a value, except a Content-Length. */
  function ValueStartHs(hs: HeaderState, c: char): HeaderState {
    match hs
    case H_TRANSFER_ENCODING =>
      if c == 'c' then H_MATCHING_TRANSFER_ENCODING_CHUNKED else H_MATCHING_TRANSFER_ENCODING_TOKEN
    case H_MATCHING_TRANSFER_ENCODING_TOKEN_START | H_CONTENT_LENGTH_WS => hs
    case H_CONNECTION =>
      if c == 'k' then H_MATCHING_CONNECTION_KEEP_ALIVE
      else if c == 'c' then H_MATCHING_CONNECTION_CLOSE
      else if c == ' ' || c == '\t' then H_CONNECTION
      else H_GENERAL
    case _ => H_GENERAL
  }

  function OnValueStart(p: Parser, ch: Byte): Parser {
    var q := p.(state := S_HEADER_VALUE, index := 0);
    if q.hs == H_CONTENT_LENGTH then
      if !IsNum(ch) then Fail(q, CHPE_INVALID_CONTENT_LENGTH)
      else if q.flags.contentLength then Fail(q, CHPE_UNEXPECTED_CONTENT_LENGTH)
      else q.(flags := q.flags.(contentLength := true), contentLength := Digit(ch), hs := H_CONTENT_LENGTH_NUM)
    else
      var flags := if q.hs == H_UPGRADE then q.flags.(upgrade := true) else q.flags;
      q.(flags := flags, hs := ValueStartHs(q.hs, Lower(ch)))
  }

  datatype Length = Length(value: nat) | Overflow

  /** A decimal digit on the Content-Length accumulator: the product is formed
      in 64-bit arithmetic before the limit is tested. */
  function LengthDigit(length: nat, digit: nat): Length {
    var t := (length * 10 + digit) % UINT64;
    if (ULLONG_MAX - 10) / 10 < length then Overflow else Length(t)
  }

  /** The header-value matcher on a byte other than CR and LF: what becomes of
      the sub-state, or None for a byte that a Content-Length cannot hold. */
  function ValueNext(m: Matcher, ch: Byte): Option<Matcher> {
    var c := Lower(ch);
    match m.hs
    case H_GENERAL => Some(m)
    case H_CONNECTION | H_TRANSFER_ENCODING => Some(m)
    case H_CONTENT_LENGTH =>
      if ch == ' ' then Some(m)
      else if IsNum(ch) then Some(Matcher(H_CONTENT_LENGTH_NUM, m.index)) else None
    case H_CONTENT_LENGTH_NUM =>
      if ch == ' ' then Some(Matcher(H_CONTENT_LENGTH_WS, m.index))
      else if IsNum(ch) then Some(m) else None
    case H_CONTENT_LENGTH_WS => if ch == ' ' then Some(m) else None
    case H_MATCHING_TRANSFER_ENCODING_TOKEN_START =>
      Some(if c == 'c' then Matcher(H_MATCHING_TRANSFER_ENCODING_CHUNKED, m.index)
           else if Token(c) != '\0' then Matcher(H_MATCHING_TRANSFER_ENCODING_TOKEN, m.index)
           else if c == ' ' || c == '\t' then m
           else Matcher(H_GENERAL, m.index))
    case H_MATCHING_TRANSFER_ENCODING_CHUNKED =>
      Some(MatchWord(m, c, "chunked", H_TRANSFER_ENCODING_CHUNKED, H_MATCHING_TRANSFER_ENCODING_TOKEN))
    case H_MATCHING_TRANSFER_ENCODING_TOKEN =>
      Some(if ch == ',' then Matcher(H_MATCHING_TRANSFER_ENCODING_TOKEN_START, 0) else m)
    case H_MATCHING_CONNECTION_KEEP_ALIVE =>
      Some(MatchWord(m, c, "keep-alive", H_CONNECTION_KEEP_ALIVE, H_GENERAL))
    case H_MATCHING_CONNECTION_CLOSE => Some(MatchWord(m, c, "close", H_CONNECTION_CLOSE, H_GENERAL))
    case H_TRANSFER_ENCODING_CHUNKED =>
      Some(if ch != ' ' then Matcher(H_MATCHING_TRANSFER_ENCODING_TOKEN, m.index) else m)
    case H_CONNECTION_KEEP_ALIVE | H_CONNECTION_CLOSE =>
      Some(if ch != ' ' then Matcher(H_GENERAL, m.index) else m)
    case _ => Some(Matcher(H_GENERAL, m.index))
  }

  function ValueByte(p: Parser, ch: Byte): Parser {
    match ValueNext(Matcher(p.hs, p.index), ch)
    case None => p.(errno := CHPE_INVALID_CONTENT_LENGTH)
    case Some(m) =>
      var q := p.(hs := m.hs, index := m.index);
      if m.hs != H_CONTENT_LENGTH_NUM then q
      else
        match LengthDigit(p.contentLength, Digit(ch))
        case Overflow => q.(errno := CHPE_INVALID_CONTENT_LENGTH)
        case Length(n) => q.(contentLength := n)
  }

  /** A byte that is neither the end of the value nor refused. */
  predicate IsValueByte(p: Parser, ch: char) {
    ch != CR && ch != LF && (p.lenient || IsHeaderChar(ch))
  }

  function OnHeaderValue(p: Parser, ch: Byte): Parser {
    if ch == CR then Go(p, S_HEADER_ALMOST_DONE)
    else if ch == LF then OnHeaderAlmostDone(Go(p, S_HEADER_ALMOST_DONE), ch)
    else if !IsValueByte(p, ch) then Fail(p, CHPE_INVALID_HEADER_TOKEN)
    else ValueByte(p, ch)
  }

  function OnHeaderAlmostDone(p: Parser, ch: Byte): Parser {
    if ch != LF then Fail(p, CHPE_LF_EXPECTED) else Go(p, S_HEADER_VALUE_LWS)
  }

  /** What a finished header leaves in the flags. */
  function HeaderFlags(f: Flags, hs: HeaderState): Flags {
    match hs
    case H_CONNECTION_KEEP_ALIVE => f.(keepAlive := true)
    case H_CONNECTION_CLOSE => f.(close := true)
    case H_TRANSFER_ENCODING_CHUNKED => f.(chunked := true)
    case _ => f
  }

  /** The header is finished: the line does not continue its value. */
  function EndHeader(p: Parser): Parser {
    p.(flags := HeaderFlags(p.flags, p.hs), state := S_HEADER_FIELD_START)
  }

  /** An obsolete line folding is treated as a space. */
  function FoldLine(p: Parser): Parser {
    p.(hs := if p.hs == H_CONTENT_LENGTH_NUM then H_CONTENT_LENGTH_WS else p.hs, state := S_HEADER_VALUE_START)
  }

  function OnValueLws(p: Parser, ch: Byte): Parser {
    if ch == ' ' || ch == '\t' then OnValueStart(FoldLine(p), ch) else OnHeaderFieldStart(EndHeader(p), ch)
  }

  // The end of the header block.

  /** Both framing headers are present and the settings do not allow it. */
  predicate FramingConflict(p: Parser) {
    p.usesTE && p.flags.contentLength && (if p.flags.chunked then !p.allowChunkedLength else !p.lenient)
  }

  function HeadersOver(p: Parser): Parser {
    p.(state := S_HEADERS_DONE, upgrade := p.flags.upgrade || p.mthd == M_CONNECT)
  }

  function OnHeadersAlmostDone(p: Parser, ch: Byte): (q: Parser)
    ensures q.state == p.state || q.state >= S_CHUNK_SIZE_START
  {
    if ch != LF then Fail(p, CHPE_STRICT)
    else if p.flags.trailing then p
    else if FramingConflict(p) then Fail(p, CHPE_UNEXPECTED_CONTENT_LENGTH)
    else OnHeadersDone(HeadersOver(p), ch)
  }

  function OnHeadersDone(p: Parser, ch: Byte): (q: Parser)
    ensures q.state == p.state || q.state >= S_CHUNK_SIZE_START
  {
    if ch != LF then Fail(p, CHPE_STRICT)
    else
      var q := p.(nread := 0);
      if q.upgrade || q.flags.skipBody then q
      else if q.flags.chunked then Go(q, S_CHUNK_SIZE_START)
      else if q.usesTE then
        if !q.lenient then Fail(q, CHPE_INVALID_TRANSFER_ENCODING) else Go(q, S_BODY_IDENTITY_EOF)
      else if q.contentLength == 0 || q.contentLength == ULLONG_MAX then q
      else Go(q, S_BODY_IDENTITY)
  }

  // Bodies.

  function Less(n: nat, k: nat): nat { if n <= k then 0 else n - k }

  /** `k` body bytes on the remaining length. */
  function TakeBody(p: Parser, k: nat, done: State): Parser {
    var left := Less(p.contentLength, k);
    p.(contentLength := left, state := if left == 0 then done else p.state)
  }

  function OnBodyIdentity(p: Parser, ch: Byte): Parser { TakeBody(p, 1, S_MESSAGE_DONE) }

  function OnChunkData(p: Parser, ch: Byte): Parser { TakeBody(p, 1, S_CHUNK_DATA_ALMOST_DONE) }

  function OnChunkDataAlmostDone(p: Parser, ch: Byte): Parser {
    if ch != CR then Fail(p, CHPE_STRICT) else Go(p, S_CHUNK_DATA_DONE)
  }

  function OnChunkDataDone(p: Parser, ch: Byte): Parser {
    if ch != LF then Fail(p, CHPE_STRICT) else p.(nread := 0, state := S_CHUNK_SIZE_START)
  }

  /** A hexadecimal digit on the chunk-size accumulator. */
  function SizeDigit(length: nat, digit: nat): Length {
    var t := (length * 16 + digit) % UINT64;
    if (ULLONG_MAX - 16) / 16 < length then Overflow else Length(t)
  }

  function OnChunkSizeStart(p: Parser, ch: Byte): Parser {
    if Unhex(ch) == -1 then Fail(p, CHPE_INVALID_CHUNK_SIZE)
    else p.(contentLength := Unhex(ch), state := S_CHUNK_SIZE)
  }

  function OnChunkSize(p: Parser, ch: Byte): Parser {
    if ch == CR then Go(p, S_CHUNK_SIZE_ALMOST_DONE)
    else if Unhex(ch) == -1 then
      if ch == ';' || ch == ' ' then Go(p, S_CHUNK_PARAMETERS) else Fail(p, CHPE_INVALID_CHUNK_SIZE)
    else
      match SizeDigit(p.contentLength, Unhex(ch))
      case Overflow => Fail(p, CHPE_INVALID_CONTENT_LENGTH)
      case Length(n) => p.(contentLength := n)
  }

  function OnChunkParameters(p: Parser, ch: Byte): Parser {
    if ch == CR then Go(p, S_CHUNK_SIZE_ALMOST_DONE) else p
  }

  function OnChunkSizeAlmostDone(p: Parser, ch: Byte): Parser {
    if ch != LF then Fail(p, CHPE_STRICT)
    else if p.contentLength == 0 then
      p.(nread := 0, flags := p.flags.(trailing := true), state := S_HEADER_FIELD_START)
    else p.(nread := 0, state := S_CHUNK_DATA)
  }

  // Callbacks.

  /** The callbacks of the end of the headers, in the order they run. */
  function HeadersEndEvents(p: Parser): seq<Event> {
    if p.flags.trailing then [Notified(MessageComplete)]
    else if FramingConflict(p) then []
    else [Notified(HeadersComplete)] + HeadersDoneEvents(HeadersOver(p))
  }

  /** A message without a body is complete at once. */
  function HeadersDoneEvents(p: Parser): seq<Event> {
    if p.upgrade || p.flags.skipBody
       || (!p.flags.chunked && !p.usesTE && (p.contentLength == 0 || p.contentLength == ULLONG_MAX))
    then [Notified(MessageComplete)] else []
  }

  function FieldStartEvents(p: Parser, ch: Byte): seq<Event> {
    if ch == LF then HeadersEndEvents(p)
    else if ch != CR && Token(ch) != '\0' then [Data(HeaderField, [ch])]
    else []
  }

  function ValueStartEvents(p: Parser, ch: Byte): seq<Event> {
    if OnValueStart(p, ch).errno == CHPE_OK then [Data(HeaderValue, [ch])] else []
  }

  /** Every callback that byte `ch` causes, with data delivered byte by byte. */
  function Events(p: Parser, ch: Byte): seq<Event> {
    if p.state == S_START_REQ then
      if ch != CR && ch != LF && OnStartReq(p, ch).errno == CHPE_OK then [Notified(MessageBegin)] else []
    else if p.state == S_REQ_METHOD then
      if MethodNext(p.mthd, p.index, ch).Some? then [Notified(OnMethod)] else []
    else if S_REQ_SPACES_BEFORE_URL <= p.state <= S_REQ_QUERY_STRING then
      if UrlState(Next(p, ch).state) then [Data(Url, [ch])] else []
    else if S_HEADER_FIELD_START <= p.state <= S_HEADER_ALMOST_DONE then HeaderEvents(p, ch)
    else if p.state == S_HEADERS_ALMOST_DONE then if ch == LF then HeadersEndEvents(p) else []
    else if p.state == S_HEADERS_DONE then if ch == LF then HeadersDoneEvents(p) else []
    else if p.state == S_CHUNK_DATA || p.state == S_BODY_IDENTITY_EOF then [Data(Body, [ch])]
    else if p.state == S_BODY_IDENTITY then
      [Data(Body, [ch])] + if p.contentLength <= 1 then [Notified(MessageComplete)] else []
    else if p.state == S_MESSAGE_DONE then [Notified(MessageComplete)]
    else []
  }

  function HeaderEvents(p: Parser, ch: Byte): seq<Event> {
    match p.state
    case S_HEADER_FIELD_START => FieldStartEvents(p, ch)
    case S_HEADER_FIELD => if Token(ch) != '\0' then [Data(HeaderField, [ch])] else []
    case S_HEADER_VALUE_DISCARD_WS =>
      if ch == ' ' || ch == '\t' || ch == CR || ch == LF then [] else ValueStartEvents(p, ch)
    case S_HEADER_VALUE_DISCARD_LWS =>
      if ch == ' ' || ch == '\t' then [] else [Data(HeaderValue, [])] + FieldStartEvents(p, ch)
    case S_HEADER_VALUE =>
      if IsValueByte(p, ch) && ValueByte(p, ch).errno == CHPE_OK then [Data(HeaderValue, [ch])] else []
    case S_HEADER_VALUE_LWS =>
      if ch == ' ' || ch == '\t' then ValueStartEvents(FoldLine(p), ch) else FieldStartEvents(EndHeader(p), ch)
    case _ => []
  }

  /** The early return after an upgrade. */
  predicate Stops(p: Parser, ch: Byte) {
    p.errno == CHPE_OK && Next(p, ch).errno == CHPE_OK && Next(p, ch).state == S_HEADERS_DONE && Next(p, ch).upgrade
  }

  // Whole inputs.

  /** A parser with its joined callback log. `stopped` records the early return
      after an upgrade, `overrun` that bytes were left over after it. */
  datatype Run = Run(p: Parser, log: Log, stopped: bool, overrun: bool)

  /** Every byte was consumed without error. */
  predicate Accepted(s: Run) { s.p.errno == CHPE_OK && !s.overrun }

  function Step(s: Run, ch: Byte): Run {
    if !Accepted(s) then s
    else if s.stopped then s.(overrun := true)
    else
      var c := Counted(s.p);
      if c.errno != CHPE_OK then s.(p := c)
      else Run(Next(c, ch), EmitAll(s.log, Events(c, ch)), Stops(c, ch), false)
  }

  function Fold(s: Run, data: seq<Byte>): Run {
    if data == [] then s
    else Step(Fold(s, data[..|data| - 1]), data[|data| - 1])
  }

  /** http_parser_init. */
  const INITIAL := Parser(NO_FLAGS, S_START_REQ, H_GENERAL, 0, false, false, false, 0, 0, 0, 0, M_DELETE, CHPE_OK, false)

  function Fresh(p: Parser): Run { Run(p, Start, false, false) }
}
