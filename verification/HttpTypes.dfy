/** The data of the HTTP request parser: its struct, its state enumerations,
    its character classes and the record of the callbacks it has run. */
module HttpTypes {

  const MAX_HEADER_SIZE: nat := 80 * 1024
  const UINT32: nat := 0x1_0000_0000
  const UINT64: nat := 0x1_0000_0000_0000_0000

  /** All 64 bits set: "no Content-Length header seen". */
  const ULLONG_MAX: nat := UINT64 - 1

  const CR := '\r'
  const LF := '\n'

  datatype Option<+T> = None | Some(value: T)

  /** One byte of input, held as the character with that code. */
  type Byte = c: char | c as int < 256

  // The parser's enumerations, with the values the source gives them: the
  // order of the states matters to it.

  type State = nat

  const S_DEAD: State := 1
  const S_START_REQ: State := 2
  const S_REQ_METHOD: State := 3
  const S_REQ_SPACES_BEFORE_URL: State := 4
  const S_REQ_SCHEMA: State := 5
  const S_REQ_SCHEMA_SLASH: State := 6
  const S_REQ_SCHEMA_SLASH_SLASH: State := 7
  const S_REQ_SERVER_START: State := 8
  const S_REQ_SERVER: State := 9
  const S_REQ_SERVER_WITH_AT: State := 10
  const S_REQ_PATH: State := 11
  const S_REQ_QUERY_STRING_START: State := 12
  const S_REQ_QUERY_STRING: State := 13
  const S_REQ_HTTP_START: State := 14
  const S_REQ_HTTP_H: State := 15
  const S_REQ_HTTP_HT: State := 16
  const S_REQ_HTTP_HTT: State := 17
  const S_REQ_HTTP_HTTP: State := 18
  const S_REQ_HTTP_I: State := 19
  const S_REQ_HTTP_IC: State := 20
  const S_REQ_HTTP_MAJOR: State := 21
  const S_REQ_HTTP_DOT: State := 22
  const S_REQ_HTTP_MINOR: State := 23
  const S_REQ_HTTP_END: State := 24
  const S_REQ_LINE_ALMOST_DONE: State := 25
  const S_HEADER_FIELD_START: State := 26
  const S_HEADER_FIELD: State := 27
  const S_HEADER_VALUE_DISCARD_WS: State := 28
  const S_HEADER_VALUE_DISCARD_WS_ALMOST_DONE: State := 29
  const S_HEADER_VALUE_DISCARD_LWS: State := 30
  const S_HEADER_VALUE_START: State := 31
  const S_HEADER_VALUE: State := 32
  const S_HEADER_VALUE_LWS: State := 33
  const S_HEADER_ALMOST_DONE: State := 34
  const S_CHUNK_SIZE_START: State := 35
  const S_CHUNK_SIZE: State := 36
  const S_CHUNK_PARAMETERS: State := 37
  const S_CHUNK_SIZE_ALMOST_DONE: State := 38
  const S_HEADERS_ALMOST_DONE: State := 39
  const S_HEADERS_DONE: State := 40
  const S_CHUNK_DATA: State := 41
  const S_CHUNK_DATA_ALMOST_DONE: State := 42
  const S_CHUNK_DATA_DONE: State := 43
  const S_BODY_IDENTITY: State := 44
  const S_BODY_IDENTITY_EOF: State := 45
  const S_MESSAGE_DONE: State := 46

  /** States up to HeadersDone in declaration order: the bytes read in them
      count towards the header size limit. */
  predicate ParsingHeader(s: State) { s <= S_HEADERS_DONE }

  /** States whose bytes belong to the request target. */
  predicate UrlState(s: State) { S_REQ_SCHEMA <= s <= S_REQ_QUERY_STRING }

  type HeaderState = nat

  const H_GENERAL: HeaderState := 0
  const H_C: HeaderState := 1
  const H_CO: HeaderState := 2
  const H_CON: HeaderState := 3
  const H_MATCHING_CONNECTION: HeaderState := 4
  const H_MATCHING_PROXY_CONNECTION: HeaderState := 5
  const H_MATCHING_CONTENT_LENGTH: HeaderState := 6
  const H_MATCHING_TRANSFER_ENCODING: HeaderState := 7
  const H_MATCHING_UPGRADE: HeaderState := 8
  const H_CONNECTION: HeaderState := 9
  const H_CONTENT_LENGTH: HeaderState := 10
  const H_CONTENT_LENGTH_NUM: HeaderState := 11
  const H_CONTENT_LENGTH_WS: HeaderState := 12
  const H_TRANSFER_ENCODING: HeaderState := 13
  const H_UPGRADE: HeaderState := 14
  const H_MATCHING_TRANSFER_ENCODING_TOKEN_START: HeaderState := 15
  const H_MATCHING_TRANSFER_ENCODING_CHUNKED: HeaderState := 16
  const H_MATCHING_TRANSFER_ENCODING_TOKEN: HeaderState := 17
  const H_MATCHING_CONNECTION_KEEP_ALIVE: HeaderState := 18
  const H_MATCHING_CONNECTION_CLOSE: HeaderState := 19
  const H_TRANSFER_ENCODING_CHUNKED: HeaderState := 20
  const H_CONNECTION_KEEP_ALIVE: HeaderState := 21
  const H_CONNECTION_CLOSE: HeaderState := 22

  type Errno = nat

  const CHPE_OK: Errno := 0
  const CHPE_INVALID_EOF_STATE: Errno := 1
  const CHPE_HEADER_OVERFLOW: Errno := 2
  const CHPE_CLOSED_CONNECTION: Errno := 3
  const CHPE_INVALID_VERSION: Errno := 4
  const CHPE_INVALID_METHOD: Errno := 5
  const CHPE_INVALID_URL: Errno := 6
  const CHPE_LF_EXPECTED: Errno := 7
  const CHPE_INVALID_HEADER_TOKEN: Errno := 8
  const CHPE_INVALID_CONTENT_LENGTH: Errno := 9
  const CHPE_UNEXPECTED_CONTENT_LENGTH: Errno := 10
  const CHPE_INVALID_CHUNK_SIZE: Errno := 11
  const CHPE_INVALID_CONSTANT: Errno := 12
  const CHPE_STRICT: Errno := 13
  const CHPE_INVALID_TRANSFER_ENCODING: Errno := 14
  const CHPE_INVALID_INTERNAL_STATE: Errno := 15

  type Method = m: nat | m <= 33

  const M_DELETE: Method := 0
  const M_GET: Method := 1
  const M_HEAD: Method := 2
  const M_POST: Method := 3
  const M_PUT: Method := 4
  const M_CONNECT: Method := 5
  const M_OPTIONS: Method := 6
  const M_TRACE: Method := 7
  const M_PATCH: Method := 8
  const M_PURGE: Method := 9
  const M_COPY: Method := 10
  const M_LOCK: Method := 11
  const M_MKCOL: Method := 12
  const M_MOVE: Method := 13
  const M_PROPFIND: Method := 14
  const M_PROPPATCH: Method := 15
  const M_SEARCH: Method := 16
  const M_UNLOCK: Method := 17
  const M_BIND: Method := 18
  const M_REBIND: Method := 19
  const M_UNBIND: Method := 20
  const M_ACL: Method := 21
  const M_REPORT: Method := 22
  const M_MKACTIVITY: Method := 23
  const M_CHECKOUT: Method := 24
  const M_MERGE: Method := 25
  const M_MSEARCH: Method := 26
  const M_NOTIFY: Method := 27
  const M_SUBSCRIBE: Method := 28
  const M_UNSUBSCRIBE: Method := 29
  const M_MKCALENDAR: Method := 30
  const M_LINK: Method := 31
  const M_UNLINK: Method := 32
  const M_SOURCE: Method := 33

  function MethodString(m: Method): (name: string)
    ensures 3 <= |name| <= 11
  {
    match m
    case M_DELETE => "DELETE"
    case M_GET => "GET"
    case M_HEAD => "HEAD"
    case M_POST => "POST"
    case M_PUT => "PUT"
    case M_CONNECT => "CONNECT"
    case M_OPTIONS => "OPTIONS"
    case M_TRACE => "TRACE"
    case M_PATCH => "PATCH"
    case M_PURGE => "PURGE"
    case M_COPY => "COPY"
    case M_LOCK => "LOCK"
    case M_MKCOL => "MKCOL"
    case M_MOVE => "MOVE"
    case M_PROPFIND => "PROPFIND"
    case M_PROPPATCH => "PROPPATCH"
    case M_SEARCH => "SEARCH"
    case M_UNLOCK => "UNLOCK"
    case M_BIND => "BIND"
    case M_REBIND => "REBIND"
    case M_UNBIND => "UNBIND"
    case M_ACL => "ACL"
    case M_REPORT => "REPORT"
    case M_MKACTIVITY => "MKACTIVITY"
    case M_CHECKOUT => "CHECKOUT"
    case M_MERGE => "MERGE"
    case M_MSEARCH => "M-SEARCH"
    case M_NOTIFY => "NOTIFY"
    case M_SUBSCRIBE => "SUBSCRIBE"
    case M_UNSUBSCRIBE => "UNSUBSCRIBE"
    case M_MKCALENDAR => "MKCALENDAR"
    case M_LINK => "LINK"
    case M_UNLINK => "UNLINK"
    case M_SOURCE => "SOURCE"
  }

  /** C string indexing: the terminating NUL is readable one past the text. */
  function CharAt(text: string, i: nat): char {
    if i < |text| then text[i] else '\0'
  }

  datatype Flags = Flags(chunked: bool, keepAlive: bool, close: bool, trailing: bool,
                         upgrade: bool, skipBody: bool, contentLength: bool)

  const NO_FLAGS := Flags(false, false, false, false, false, false, false)

  datatype Parser = Parser(
    flags: Flags,
    state: State,
    hs: HeaderState,
    index: nat,               // five bits wide
    usesTE: bool,
    allowChunkedLength: bool,
    lenient: bool,
    nread: nat,               // 32 bits wide
    contentLength: nat,       // 64 bits wide
    major: nat,
    minor: nat,
    mthd: Method,
    errno: Errno,
    upgrade: bool)

  datatype DataKind = Url | HeaderField | HeaderValue | Body

  datatype Note = MessageBegin | OnMethod | HeadersComplete | MessageComplete

  /** One callback: a notification, or a piece of data. */
  datatype Event = Notified(note: Note) | Data(kind: DataKind, text: seq<char>)

  /** A callback history in which consecutive deliveries of the same kind are
      joined, so that it does not depend on how the data was cut. */
  datatype Log = Start | Then(before: Log, last: Event)

  predicate EndsIn(log: Log, kind: DataKind) {
    log.Then? && log.last.Data? && log.last.kind == kind
  }

  function Emit(log: Log, e: Event): Log {
    if e.Data? && EndsIn(log, e.kind) then Then(log.before, Data(e.kind, log.last.text + e.text))
    else Then(log, e)
  }

  function EmitAll(log: Log, events: seq<Event>): Log {
    if events == [] then log
    else Emit(EmitAll(log, events[..|events| - 1]), events[|events| - 1])
  }

  /** The joined form of a callback history. */
  function Canon(events: seq<Event>): Log {
    EmitAll(Start, events)
  }

  lemma EmitJoins(log: Log, kind: DataKind, a: seq<char>, b: seq<char>)
    ensures Emit(Emit(log, Data(kind, a)), Data(kind, b)) == Emit(log, Data(kind, a + b))
  {
    if EndsIn(log, kind) {
      assert (log.last.text + a) + b == log.last.text + (a + b);
    }
  }

  lemma EmitEnds(log: Log, kind: DataKind, bytes: seq<Byte>)
    ensures EndsIn(Emit(log, Data(kind, bytes)), kind)
  {
  }

  lemma EmitNothing(log: Log, kind: DataKind)
    requires EndsIn(log, kind)
    ensures Emit(log, Data(kind, [])) == log
  {
    assert log.last.text + [] == log.last.text;
  }

  // Character classes. Bytes from 128 up are in none of the first three.

  /** The byte with bit 0x20 set. */
  function Lower(c: Byte): char {
    var n := c as int;
    if 32 <= n < 64 || 96 <= n < 128 || 160 <= n < 192 || 224 <= n then c else (n + 32) as char
  }

  predicate IsAlpha(c: Byte) { 'a' <= Lower(c) <= 'z' }
  predicate IsNum(c: char) { '0' <= c <= '9' }

  predicate IsMark(c: char) {
    c == '-' || c == '_' || c == '.' || c == '!' || c == '~' || c == '*' || c == '\'' || c == '(' || c == ')'
  }

  predicate IsUserinfoChar(c: Byte) {
    IsAlpha(c) || IsNum(c) || IsMark(c) || c == '%' || c == ';' || c == ':' || c == '&'
    || c == '=' || c == '+' || c == '$' || c == ','
  }

  /** Printable ASCII except space, '#' and '?'. */
  predicate IsUrlChar(c: char) {
    33 <= c as int <= 126 && c != '#' && c != '?'
  }

  /** The token table: NUL for a byte that is not a token character, and the
      lower-case form otherwise. */
  function Token(c: char): char {
    if 'A' <= c <= 'Z' then (c as int + 32) as char
    else if 'a' <= c <= 'z' || '0' <= c <= '9' then c
    else if c == '!' || c == '#' || c == '$' || c == '%' || c == '&' || c == '\'' || c == '*' || c == '+'
            || c == '-' || c == '.' || c == '^' || c == '_' || c == '`' || c == '|' || c == '~' then c
    else '\0'
  }

  predicate IsHeaderChar(c: char) {
    c == CR || c == LF || c as int == 9 || (c as int > 31 && c as int != 127)
  }

  /** The hexadecimal table. It is declared with 256 entries and initialised
      with 128, so every byte from 128 up reads as the digit 0. */
  function Unhex(c: char): (v: int)
    ensures -1 <= v < 16
  {
    if '0' <= c <= '9' then c as int - '0' as int
    else if 'a' <= c <= 'f' then c as int - 'a' as int + 10
    else if 'A' <= c <= 'F' then c as int - 'A' as int + 10
    else if c as int >= 128 then 0
    else -1
  }
}
