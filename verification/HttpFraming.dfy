/** Message framing: what the length accumulators compute, and that chunked
    encoding (section 4.1 of RFC 7230) is undone exactly. */
module HttpFraming {
  import opened HttpTypes
  import opened HttpStep
  import opened HttpInvariant
  import opened HttpFold

  // Content-Length.

  predicate Digits(ds: seq<Byte>) { forall k :: 0 <= k < |ds| ==> IsNum(ds[k]) }

  /** The number that the decimal digits `ds` write after `v`. */
  function Decimal(v: nat, ds: seq<Byte>): nat {
    if ds == [] then v else Decimal(v, ds[..|ds| - 1]) * 10 + Digit(ds[|ds| - 1])
  }

  lemma {:induction false} DecimalGrows(v: nat, ds: seq<Byte>)
    ensures v <= Decimal(v, ds)
  {
    if ds != [] {
      DecimalGrows(v, ds[..|ds| - 1]);
    }
  }

  /** A parser inside the digits of a Content-Length value. */
  predicate InLength(s: Run) {
    Live(s) && s.p.state == S_HEADER_VALUE && s.p.hs == H_CONTENT_LENGTH_NUM && EndsIn(s.log, HeaderValue)
  }

  function AfterDigits(s: Run, ds: seq<Byte>): Run {
    s.(p := s.p.(nread := s.p.nread + |ds|, contentLength := Decimal(s.p.contentLength, ds)),
       log := Emit(s.log, Data(HeaderValue, ds)))
  }

  lemma DigitByte(s: Run, ch: Byte)
    requires InLength(s) && IsNum(ch) && s.p.nread < MAX_HEADER_SIZE
    ensures var t := Step(s, ch);
            if s.p.contentLength > (ULLONG_MAX - 10) / 10 then t.p.errno == CHPE_INVALID_CONTENT_LENGTH
            else t == AfterDigits(s, [ch])
  {
    var c := s.p.(nread := s.p.nread + 1);
    assert Counted(s.p) == c;
    assert Next(c, ch) == OnHeaderValue(c, ch) == ValueByte(c, ch);
    LengthDigitIsExact(s.p.contentLength, Digit(ch));
    EmitOne(s.log, Data(HeaderValue, [ch]));
    assert [ch][..0] == [];
    assert Decimal(s.p.contentLength, [ch]) == s.p.contentLength * 10 + Digit(ch);
  }

  /** Every digit string is either read as the exact number it writes or
      refused, and it is refused exactly when all but its last digit write more
      than the limit. */
  lemma {:induction false} LengthIsExact(s: Run, ds: seq<Byte>)
    requires InLength(s) && Digits(ds) && ds != [] && s.p.nread + |ds| <= MAX_HEADER_SIZE
    ensures var t := Fold(s, ds);
            && (Accepted(t) <==> Decimal(s.p.contentLength, ds[..|ds| - 1]) <= (ULLONG_MAX - 10) / 10)
            && (Accepted(t) ==> t == AfterDigits(s, ds) && t.p.contentLength < ULLONG_MAX)
            && (!Accepted(t) ==> t.p.errno == CHPE_INVALID_CONTENT_LENGTH)
  {
    hide Step, Fold, Decimal;
    var init, last := ds[..|ds| - 1], ds[|ds| - 1];
    FoldNext(s, ds, |ds| - 1);
    DecimalOne(s.p.contentLength, ds);
    assert ds[..|ds|] == ds && init + [last] == ds;
    var mid := Fold(s, init);
    if init == [] {
      FoldNone(s);
      DigitByte(s, last);
      assert [last] == ds;
    } else {
      LengthIsExact(s, init);
      DecimalOne(s.p.contentLength, init);
      if Accepted(mid) {
        DigitAfter(s, init, last);
      } else {
        RefusedForGood(mid, [last]);
        FoldOne(mid, last);
      }
    }
    DecimalNone(s.p.contentLength);
  }

  lemma DigitAfter(s: Run, init: seq<Byte>, last: Byte)
    requires InLength(s) && IsNum(last) && s.p.nread + |init| < MAX_HEADER_SIZE
    ensures var t := Step(AfterDigits(s, init), last);
            if Decimal(s.p.contentLength, init) > (ULLONG_MAX - 10) / 10
            then t.p.errno == CHPE_INVALID_CONTENT_LENGTH
            else t == AfterDigits(s, init + [last])
  {
    hide Step, Decimal;
    var mid := AfterDigits(s, init);
    EmitEnds(s.log, HeaderValue, init);
    DigitByte(mid, last);
    DecimalOne(mid.p.contentLength, [last]);
    DecimalNone(mid.p.contentLength);
    DecimalOne(s.p.contentLength, init + [last]);
    assert (init + [last])[..|init|] == init && [last][..0] == [];
    EmitJoins(s.log, HeaderValue, init, [last]);
  }

  lemma DecimalNone(v: nat)
    ensures Decimal(v, []) == v
  {
  }

  lemma DecimalOne(v: nat, ds: seq<Byte>)
    requires ds != []
    ensures Decimal(v, ds) == Decimal(v, ds[..|ds| - 1]) * 10 + Digit(ds[|ds| - 1])
  {
  }

  lemma {:induction false} DecimalCons(ch: Byte, ds: seq<Byte>)
    ensures Decimal(0, [ch] + ds) == Decimal(Digit(ch), ds)
  {
    if ds == [] {
      assert [ch] + ds == [ch] && [ch][..0] == [];
      assert Decimal(0, [ch]) == Decimal(0, []) * 10 + Digit(ch);
    } else {
      DecimalCons(ch, ds[..|ds| - 1]);
      assert ([ch] + ds)[..|ds|] == [ch] + ds[..|ds| - 1];
    }
  }

  /** The first digit of a Content-Length value, which no other may precede. */
  lemma FirstDigit(s: Run, ch: Byte)
    requires Live(s) && s.p.state == S_HEADER_VALUE_DISCARD_WS && s.p.hs == H_CONTENT_LENGTH
    requires !s.p.flags.contentLength && IsNum(ch) && s.p.nread < MAX_HEADER_SIZE
    ensures var t := Step(s, ch);
            && InLength(t) && t.p.contentLength == Digit(ch) && t.p.nread == s.p.nread + 1
            && t.log == Emit(s.log, Data(HeaderValue, [ch]))
  {
    var c := s.p.(nread := s.p.nread + 1);
    assert Counted(s.p) == c;
    assert Next(c, ch) == OnDiscardWs(c, ch) == OnValueStart(c, ch);
    EmitOne(s.log, Data(HeaderValue, [ch]));
  }

  /** A whole Content-Length value. */
  lemma ContentLengthIsExact(s: Run, ds: seq<Byte>)
    requires Live(s) && s.p.state == S_HEADER_VALUE_DISCARD_WS && s.p.hs == H_CONTENT_LENGTH
    requires !s.p.flags.contentLength && Digits(ds) && ds != [] && s.p.nread + |ds| <= MAX_HEADER_SIZE
    ensures var t := Fold(s, ds);
            && (Accepted(t) <==> Decimal(0, ds[..|ds| - 1]) <= (ULLONG_MAX - 10) / 10)
            && (Accepted(t) ==> t.p.contentLength == Decimal(0, ds) < ULLONG_MAX
                                && t.log == Emit(s.log, Data(HeaderValue, ds)))
  {
    hide Step, InLength, Counted;
    var rest := ds[1..];
    FirstDigit(s, ds[0]);
    FoldOne(s, ds[0]);
    FoldConcat(s, [ds[0]], rest);
    assert ds == [ds[0]] + rest;
    DecimalCons(ds[0], rest);
    if rest == [] {
      FoldNone(Step(s, ds[0]));
      assert ds[..0] == [];
      assert ds == [ds[0]];
      InLengthIsLive(Step(s, ds[0]));
    } else {
      LengthIsExact(Step(s, ds[0]), rest);
      DecimalCons(ds[0], rest[..|rest| - 1]);
      assert ds[..|ds| - 1] == [ds[0]] + rest[..|rest| - 1];
      EmitJoins(s.log, HeaderValue, [ds[0]], rest);
    }
  }

  lemma InLengthIsLive(s: Run)
    requires InLength(s)
    ensures Accepted(s)
  {
  }

  // Chunked encoding.

  predicate HexDigits(ds: seq<Byte>) { forall k :: 0 <= k < |ds| ==> Unhex(ds[k]) != -1 }

  /** The number that the hexadecimal digits `ds` write after `v`. */
  function Hex(v: nat, ds: seq<Byte>): nat
    requires HexDigits(ds)
  {
    if ds == [] then v else Hex(v, ds[..|ds| - 1]) * 16 + Unhex(ds[|ds| - 1])
  }

  predicate InSize(s: Run) { Live(s) && s.p.state == S_CHUNK_SIZE }

  lemma SizeByte(s: Run, ch: Byte)
    requires InSize(s) && Unhex(ch) != -1 && s.p.nread < MAX_HEADER_SIZE
    ensures var t := Step(s, ch);
            if s.p.contentLength > (ULLONG_MAX - 16) / 16 then t.p.errno == CHPE_INVALID_CONTENT_LENGTH
            else t == s.(p := s.p.(nread := s.p.nread + 1, contentLength := s.p.contentLength * 16 + Unhex(ch)))
  {
    var c := s.p.(nread := s.p.nread + 1);
    assert Counted(s.p) == c;
    assert Next(c, ch) == OnFraming(c, ch) == OnChunkSize(c, ch);
    SizeDigitIsExact(s.p.contentLength, Unhex(ch));
    assert Events(c, ch) == [] && EmitAll(s.log, []) == s.log;
  }

  /** The digits of a chunk size after the first: exact, or refused. */
  lemma {:induction false} SizeIsExact(s: Run, ds: seq<Byte>)
    requires InSize(s) && HexDigits(ds) && ds != [] && s.p.nread + |ds| <= MAX_HEADER_SIZE
    ensures var t := Fold(s, ds);
            && (Accepted(t) <==> Hex(s.p.contentLength, ds[..|ds| - 1]) <= (ULLONG_MAX - 16) / 16)
            && (Accepted(t) ==>
                  t == s.(p := s.p.(nread := s.p.nread + |ds|, contentLength := Hex(s.p.contentLength, ds)))
                  && t.p.contentLength < ULLONG_MAX)
  {
    hide Step, Unhex;
    var init, last := ds[..|ds| - 1], ds[|ds| - 1];
    if init == [] {
      assert ds == [last];
      FoldOne(s, last);
      SizeByte(s, last);
    } else {
      SizeIsExact(s, init);
      var mid := Fold(s, init);
      if Accepted(mid) {
        SizeByte(mid, last);
      } else {
        RefusedForGood(mid, [last]);
        FoldOne(mid, last);
      }
    }
  }

  /** Anything between the size and the end of its line. */
  predicate Extension(ext: seq<Byte>) {
    ext != [] ==> (ext[0] == ';' || ext[0] == ' ') && CR !in ext
  }

  datatype Chunk = Chunk(size: seq<Byte>, ext: seq<Byte>, data: seq<Byte>)

  predicate SizeLineOk(size: seq<Byte>, ext: seq<Byte>, n: nat) {
    && size != [] && HexDigits(size) && Hex(0, size) == n && n <= ULLONG_MAX - 16
    && Extension(ext) && |size| + |ext| + 2 <= MAX_HEADER_SIZE
  }

  predicate ChunkOk(c: Chunk) { c.data != [] && SizeLineOk(c.size, c.ext, |c.data|) }

  const CRLF: seq<Byte> := [CR, LF]

  function EncodeSize(size: seq<Byte>, ext: seq<Byte>): seq<Byte> { size + ext + CRLF }

  function EncodeChunk(c: Chunk): seq<Byte> { EncodeSize(c.size, c.ext) + c.data + CRLF }

  function EncodeChunks(cs: seq<Chunk>): seq<Byte> {
    if cs == [] then [] else EncodeChunks(cs[..|cs| - 1]) + EncodeChunk(cs[|cs| - 1])
  }

  function Payload(cs: seq<Chunk>): seq<Byte> {
    if cs == [] then [] else Payload(cs[..|cs| - 1]) + cs[|cs| - 1].data
  }

  /** A parser about to read a chunk size. */
  predicate AtChunk(s: Run) { Live(s) && s.p.state == S_CHUNK_SIZE_START && s.p.nread == 0 }

  function Sized(s: Run, count: nat, length: nat, st: State): Run {
    s.(p := s.p.(nread := count, contentLength := length, state := st))
  }

  lemma FirstSizeByte(s: Run, ch: Byte)
    requires AtChunk(s) && Unhex(ch) != -1
    ensures Step(s, ch) == Sized(s, 1, Unhex(ch), S_CHUNK_SIZE)
  {
    var c := s.p.(nread := 1);
    assert Counted(s.p) == c;
    assert Next(c, ch) == OnFraming(c, ch) == OnChunkSizeStart(c, ch);
    assert Events(c, ch) == [] && EmitAll(s.log, []) == s.log;
  }

  lemma {:induction false} HexCons(ch: Byte, ds: seq<Byte>)
    requires Unhex(ch) != -1 && HexDigits(ds)
    ensures HexDigits([ch] + ds) && Hex(0, [ch] + ds) == Hex(Unhex(ch), ds)
  {
    if ds == [] {
      assert [ch] + ds == [ch] && [ch][..0] == [];
      assert Hex(0, [ch]) == Hex(0, []) * 16 + Unhex(ch);
    } else {
      HexCons(ch, ds[..|ds| - 1]);
      assert ([ch] + ds)[..|ds|] == [ch] + ds[..|ds| - 1];
    }
  }

  lemma ReadSize(s: Run, size: seq<Byte>)
    requires AtChunk(s) && size != [] && HexDigits(size)
    requires |size| <= MAX_HEADER_SIZE && Hex(0, size) <= ULLONG_MAX - 16
    ensures Fold(s, size) == Sized(s, |size|, Hex(0, size), S_CHUNK_SIZE)
  {
    hide Step, Unhex, Counted;
    var rest := size[1..];
    FirstSizeByte(s, size[0]);
    FoldOne(s, size[0]);
    FoldConcat(s, [size[0]], rest);
    assert size == [size[0]] + rest;
    HexCons(size[0], rest);
    if rest == [] {
      FoldNone(Step(s, size[0]));
    } else {
      SizeIsExact(Step(s, size[0]), rest);
      assert Hex(Unhex(size[0]), rest) ==
             Hex(Unhex(size[0]), rest[..|rest| - 1]) * 16 + Unhex(rest[|rest| - 1]);
    }
  }

  lemma ExtensionByte(s: Run, ch: Byte)
    requires Live(s) && s.p.nread < MAX_HEADER_SIZE
    requires (s.p.state == S_CHUNK_SIZE && (ch == ';' || ch == ' ')) || (s.p.state == S_CHUNK_PARAMETERS && ch != CR)
    ensures Step(s, ch) == Sized(s, s.p.nread + 1, s.p.contentLength, S_CHUNK_PARAMETERS)
  {
    var c := s.p.(nread := s.p.nread + 1);
    assert Counted(s.p) == c;
    assert Next(c, ch) == OnFraming(c, ch);
    assert Events(c, ch) == [] && EmitAll(s.log, []) == s.log;
  }

  lemma {:induction false} ReadExtension(s: Run, ext: seq<Byte>)
    requires Live(s) && s.p.state == S_CHUNK_SIZE
    requires Extension(ext) && ext != [] && s.p.nread + |ext| <= MAX_HEADER_SIZE
    ensures Fold(s, ext) == Sized(s, s.p.nread + |ext|, s.p.contentLength, S_CHUNK_PARAMETERS)
  {
    hide Step;
    var init, last := ext[..|ext| - 1], ext[|ext| - 1];
    if init == [] {
      assert ext == [last];
      FoldOne(s, last);
      ExtensionByte(s, last);
    } else {
      ReadExtension(s, init);
      ExtensionByte(Fold(s, init), last);
    }
  }

  lemma ReadSizeEnd(s: Run)
    requires Live(s) && (s.p.state == S_CHUNK_SIZE || s.p.state == S_CHUNK_PARAMETERS)
    requires s.p.nread + 2 <= MAX_HEADER_SIZE
    ensures Fold(s, CRLF)
            == if s.p.contentLength == 0 then
                 s.(p := s.p.(nread := 0, state := S_HEADER_FIELD_START, flags := s.p.flags.(trailing := true)))
               else Sized(s, 0, s.p.contentLength, S_CHUNK_DATA)
  {
    var c := s.p.(nread := s.p.nread + 1);
    assert Counted(s.p) == c;
    assert Next(c, CR) == OnFraming(c, CR) == Go(c, S_CHUNK_SIZE_ALMOST_DONE);
    assert Events(c, CR) == [] && EmitAll(s.log, []) == s.log;
    var t := s.(p := Go(c, S_CHUNK_SIZE_ALMOST_DONE));
    assert Step(s, CR) == t;
    ReadSizeLf(t);
    assert CRLF[..1] == [CR];
    FoldOne(s, CR);
  }

  lemma ReadSizeLf(s: Run)
    requires Live(s) && s.p.state == S_CHUNK_SIZE_ALMOST_DONE && s.p.nread < MAX_HEADER_SIZE
    ensures Step(s, LF)
            == if s.p.contentLength == 0 then
                 s.(p := s.p.(nread := 0, state := S_HEADER_FIELD_START, flags := s.p.flags.(trailing := true)))
               else Sized(s, 0, s.p.contentLength, S_CHUNK_DATA)
  {
    var c := s.p.(nread := s.p.nread + 1);
    assert Counted(s.p) == c;
    assert Next(c, LF) == OnFraming(c, LF) == OnChunkSizeAlmostDone(c, LF);
    assert Events(c, LF) == [] && EmitAll(s.log, []) == s.log;
  }

  lemma ReadSizeLine(s: Run, size: seq<Byte>, ext: seq<Byte>, n: nat)
    requires AtChunk(s) && SizeLineOk(size, ext, n)
    ensures Fold(s, EncodeSize(size, ext))
            == if n == 0 then
                 s.(p := s.p.(nread := 0, contentLength := 0, state := S_HEADER_FIELD_START,
                              flags := s.p.flags.(trailing := true)))
               else Sized(s, 0, n, S_CHUNK_DATA)
  {
    hide Step, Fold, Hex;
    ReadSize(s, size);
    var t := Fold(s, size);
    FoldConcat(s, size, ext);
    FoldConcat(s, size + ext, CRLF);
    if ext == [] {
      assert size + ext == size;
      ReadSizeEnd(t);
    } else {
      ReadExtension(t, ext);
      ReadSizeEnd(Fold(t, ext));
    }
  }

  // Which size lines are accepted.

  /** HEXDIG of section 4.1 of RFC 7230. */
  predicate IsHexDigit(ch: Byte) { '0' <= ch <= '9' || 'a' <= ch <= 'f' || 'A' <= ch <= 'F' }

  /** The bytes that the table has for a digit: also those that it has no entry for. */
  predicate TakenForDigit(ch: Byte) { IsHexDigit(ch) || ch as int >= 128 }

  lemma TakenIsHex(ch: Byte)
    ensures TakenForDigit(ch) <==> Unhex(ch) != -1
  {
  }

  lemma NoDigitRefused(s: Run, ch: Byte)
    requires Live(s) && (s.p.state == S_CHUNK_SIZE_START || s.p.state == S_CHUNK_SIZE) && s.p.nread < MAX_HEADER_SIZE
    requires !TakenForDigit(ch) && (s.p.state == S_CHUNK_SIZE ==> ch != CR && ch != ';' && ch != ' ')
    ensures !Accepted(Step(s, ch))
  {
    var c := s.p.(nread := s.p.nread + 1);
    assert Counted(s.p) == c;
    assert Next(c, ch) == OnFraming(c, ch);
  }

  /** Where the size on a line ends. */
  function SizeEnd(line: seq<Byte>): (n: nat)
    ensures n <= |line| && (n < |line| ==> line[n] == ';' || line[n] == ' ')
    ensures forall k :: 0 <= k < n ==> line[k] != ';' && line[k] != ' '
  {
    if line == [] then 0
    else
      var init := line[..|line| - 1];
      var n := SizeEnd(init);
      assert forall k :: 0 <= k < n ==> line[k] == init[k];
      if n < |init| then n else if line[|init|] == ';' || line[|init|] == ' ' then |init| else |line|
  }

  /** Digits, of a number that the parser can hold. */
  predicate SizeOk(size: seq<Byte>) {
    && size != [] && (forall k :: 0 <= k < |size| ==> TakenForDigit(size[k]))
    && HexDigits(size[..|size| - 1]) && Hex(0, size[..|size| - 1]) <= (ULLONG_MAX - 16) / 16
  }

  lemma TakenAll(size: seq<Byte>)
    ensures (forall k :: 0 <= k < |size| ==> TakenForDigit(size[k])) <==> HexDigits(size)
  {
    forall k | 0 <= k < |size| ensures TakenForDigit(size[k]) <==> Unhex(size[k]) != -1 {
      TakenIsHex(size[k]);
    }
    hide TakenForDigit, Unhex;
  }

  /** The bytes of a size, one by one: exact, or refused. */
  lemma {:induction false} SizeIsRead(s: Run, size: seq<Byte>)
    requires AtChunk(s) && size != [] && |size| <= MAX_HEADER_SIZE
    requires forall k :: 0 <= k < |size| ==> size[k] != CR && size[k] != ';' && size[k] != ' '
    ensures Accepted(Fold(s, size)) <==> SizeOk(size)
    ensures Accepted(Fold(s, size)) ==> HexDigits(size) && Fold(s, size) == Sized(s, |size|, Hex(0, size), S_CHUNK_SIZE)
  {
    var init, last := size[..|size| - 1], size[|size| - 1];
    TakenIsHex(last);
    TakenAll(init);
    TakenAll(size);
    FoldNext(s, size, |size| - 1);
    assert size[..|size|] == size && init + [last] == size;
    if init == [] {
      assert size == [last];
      FoldNone(s);
      HexOne(last);
      hide Step, Fold, Unhex, TakenForDigit;
      if TakenForDigit(last) {
        FirstSizeByte(s, last);
      } else {
        NoDigitRefused(s, last);
      }
    } else {
      SizeIsRead(s, init);
      hide Step, Fold, Unhex, TakenForDigit;
      if Accepted(Fold(s, init)) {
        if TakenForDigit(last) {
          SizeByte(Fold(s, init), last);
        } else {
          NoDigitRefused(Fold(s, init), last);
        }
      } else {
        RefusedForGood(Fold(s, init), [last]);
        FoldOne(Fold(s, init), last);
        HexMore(init);
      }
    }
  }

  lemma HexOne(ch: Byte)
    ensures [ch][..0] == [] && HexDigits([ch][..0]) && Hex(0, [ch][..0]) == 0
    ensures HexDigits([ch]) ==> Hex(0, [ch]) == Unhex(ch)
  {
    if HexDigits([ch]) {
      assert Unhex([ch][0]) != -1;
    }
  }

  lemma HexMore(ds: seq<Byte>)
    requires ds != []
    ensures HexDigits(ds) ==> HexDigits(ds[..|ds| - 1]) && Hex(0, ds) >= Hex(0, ds[..|ds| - 1])
  {
  }

  lemma NothingIsRefused(s: Run, ch: Byte, rest: seq<Byte>)
    requires AtChunk(s) && !TakenForDigit(ch)
    ensures !Accepted(Fold(s, [ch] + rest))
  {
    hide Step;
    NoDigitRefused(s, ch);
    FoldOne(s, ch);
    FoldConcat(s, [ch], rest);
    RefusedForGood(Fold(s, [ch]), rest);
  }

  /** Which lines are taken for the size of a chunk, and for which: a hexadecimal number
      up to the limit, in digits as in section 4.1 of RFC 7230 or in bytes from 128 up,
      each of which stands for the digit 0; and anything behind a semicolon or space. */
  lemma SizeLineIff(s: Run, line: seq<Byte>)
    requires AtChunk(s) && CR !in line && |line| + 2 <= MAX_HEADER_SIZE
    ensures var t, size := Fold(s, line + CRLF), line[..SizeEnd(line)];
            && (Accepted(t) <==> SizeOk(size))
            && (Accepted(t) ==>
                  && HexDigits(size)
                  && t == if Hex(0, size) == 0 then
                            s.(p := s.p.(nread := 0, contentLength := 0, state := S_HEADER_FIELD_START,
                                         flags := s.p.flags.(trailing := true)))
                          else Sized(s, 0, Hex(0, size), S_CHUNK_DATA))
  {
    hide Step, Fold, Hex, Unhex, SizeOk;
    var n := SizeEnd(line);
    var size, ext := line[..n], line[n..];
    assert line == size + ext;
    if size == [] {
      NotOk(size);
      assert line + CRLF == [(line + CRLF)[0]] + (line + CRLF)[1..];
      NothingIsRefused(s, (line + CRLF)[0], (line + CRLF)[1..]);
    } else {
      SizeIsRead(s, size);
      FoldConcat(s, size, ext + CRLF);
      assert size + (ext + CRLF) == line + CRLF;
      var t := Fold(s, size);
      if Accepted(t) {
        FoldConcat(t, ext, CRLF);
        if ext == [] {
          FoldNone(t);
          ReadSizeEnd(t);
        } else {
          ReadExtension(t, ext);
          ReadSizeEnd(Fold(t, ext));
        }
      } else {
        RefusedForGood(t, ext + CRLF);
      }
    }
  }

  lemma NotOk(size: seq<Byte>)
    requires size == []
    ensures !SizeOk(size) && !TakenForDigit(CR) && !TakenForDigit(';') && !TakenForDigit(' ')
  {
  }

  /** A size line against section 4.1 of RFC 7230: what is taken for a size is one
      exactly if it has no byte from 128 up. */
  lemma SizeMeetsRfcIff(line: seq<Byte>)
    requires SizeOk(line[..SizeEnd(line)])
    ensures (forall k :: 0 <= k < SizeEnd(line) ==> IsHexDigit(line[k])) <==> forall k :: 0 <= k < SizeEnd(line) ==> line[k] as int < 128
  {
    var size := line[..SizeEnd(line)];
    forall k | 0 <= k < SizeEnd(line) ensures TakenForDigit(line[k]) {
      assert line[k] == size[k];
    }
  }

  const HIGH: Byte := 128 as char

  /** The line that is only the byte 128 is taken for the last chunk. */
  lemma HighByteEndsBody(s: Run)
    requires AtChunk(s)
    ensures var t := Fold(s, [HIGH] + CRLF);
            Accepted(t) && t.p.state == S_HEADER_FIELD_START && t.p.flags.trailing
  {
    var line := [HIGH];
    assert SizeEnd(line) == 1 && line[..1] == line;
    assert TakenForDigit(line[0]) && line[..0] == [];
    assert SizeOk(line);
    HexOne(HIGH);
    SizeLineIff(s, line);
    hide Fold;
  }

  lemma ReadDataEnd(s: Run)
    requires Live(s) && s.p.state == S_CHUNK_DATA_ALMOST_DONE
    ensures Fold(s, CRLF) == s.(p := s.p.(nread := 0, state := S_CHUNK_SIZE_START))
  {
    assert Counted(s.p) == s.p;
    assert Next(s.p, CR) == OnFraming(s.p, CR) == Go(s.p, S_CHUNK_DATA_DONE);
    assert Events(s.p, CR) == [] && EmitAll(s.log, []) == s.log;
    var t := s.(p := Go(s.p, S_CHUNK_DATA_DONE));
    assert Step(s, CR) == t;
    assert Counted(t.p) == t.p;
    assert Next(t.p, LF) == OnFraming(t.p, LF) == OnChunkDataDone(t.p, LF);
    assert Events(t.p, LF) == [];
    assert CRLF[..1] == [CR];
    FoldOne(s, CR);
  }

  /** One chunk delivers its data and leaves the parser before the next. */
  lemma ReadChunk(s: Run, c: Chunk)
    requires AtChunk(s) && ChunkOk(c)
    ensures Fold(s, EncodeChunk(c))
            == s.(p := s.p.(contentLength := 0), log := Emit(s.log, Data(Body, c.data)))
  {
    hide Step, Fold, SizeLineOk;
    var line := EncodeSize(c.size, c.ext);
    ReadSizeLine(s, c.size, c.ext, |c.data|);
    FoldConcat(s, line, c.data);
    FoldConcat(s, line + c.data, CRLF);
    var t := Fold(s, line);
    FoldBody(t, c.data);
    ReadDataEnd(Fold(t, c.data));
  }

  predicate ChunksOk(cs: seq<Chunk>) { forall k :: 0 <= k < |cs| ==> ChunkOk(cs[k]) }

  lemma {:induction false} ReadChunks(s: Run, cs: seq<Chunk>)
    requires AtChunk(s) && ChunksOk(cs) && cs != []
    ensures Fold(s, EncodeChunks(cs))
            == s.(p := s.p.(contentLength := 0), log := Emit(s.log, Data(Body, Payload(cs))))
  {
    hide Step, Fold, ChunkOk, EncodeChunk;
    var init, last := cs[..|cs| - 1], cs[|cs| - 1];
    FoldConcat(s, EncodeChunks(init), EncodeChunk(last));
    if init == [] {
      FoldNone(s);
      ReadChunk(s, last);
      assert Payload(cs) == last.data;
    } else {
      ReadChunks(s, init);
      ReadChunk(Fold(s, EncodeChunks(init)), last);
      EmitJoins(s.log, Body, Payload(init), last.data);
    }
  }

  /** The line feed that ends the last, empty line completes the message. */
  lemma ReadTrailerEnd(s: Run)
    requires Live(s) && s.p.state == S_HEADER_FIELD_START && s.p.flags.trailing && s.p.nread == 0
    ensures Fold(s, CRLF)
            == s.(p := s.p.(nread := 2, state := S_HEADERS_ALMOST_DONE), log := Emit(s.log, Notified(MessageComplete)))
  {
    var c := s.p.(nread := 1);
    assert Counted(s.p) == c;
    assert Next(c, CR) == OnHeader(c, CR) == Go(c, S_HEADERS_ALMOST_DONE);
    assert Events(c, CR) == [] && EmitAll(s.log, []) == s.log;
    var t := s.(p := Go(c, S_HEADERS_ALMOST_DONE));
    assert Step(s, CR) == t;
    var d := t.p.(nread := 2);
    assert Counted(t.p) == d;
    assert Next(d, LF) == OnFraming(d, LF) == d;
    assert Events(d, LF) == [Notified(MessageComplete)];
    EmitOne(t.log, Notified(MessageComplete));
    assert CRLF[..1] == [CR];
    FoldOne(s, CR);
  }

  /** Chunked decoding: any chunks, then a last chunk of size zero and an empty
      line, deliver the chunks' data joined and then signal completion, once. */
  lemma ChunkedBodyIsDecoded(s: Run, cs: seq<Chunk>, zero: seq<Byte>, ext: seq<Byte>)
    requires AtChunk(s) && ChunksOk(cs) && cs != [] && SizeLineOk(zero, ext, 0)
    ensures var t := Fold(s, EncodeChunks(cs) + EncodeSize(zero, ext) + CRLF);
            && Accepted(t)
            && t.log == Emit(Emit(s.log, Data(Body, Payload(cs))), Notified(MessageComplete))
  {
    hide Step, Fold, SizeLineOk, EncodeChunks, EncodeSize;
    var body := EncodeChunks(cs);
    ReadChunks(s, cs);
    FoldConcat(s, body, EncodeSize(zero, ext));
    FoldConcat(s, body + EncodeSize(zero, ext), CRLF);
    var t := Fold(s, body);
    ReadSizeLine(t, zero, ext, 0);
    ReadTrailerEnd(Fold(t, EncodeSize(zero, ext)));
  }

  /** A message without data is complete as well, and delivers nothing. */
  lemma EmptyChunkedBody(s: Run, zero: seq<Byte>, ext: seq<Byte>)
    requires AtChunk(s) && SizeLineOk(zero, ext, 0)
    ensures var t := Fold(s, EncodeSize(zero, ext) + CRLF);
            Accepted(t) && t.log == Emit(s.log, Notified(MessageComplete))
  {
    hide Step, Fold, SizeLineOk, EncodeSize;
    FoldConcat(s, EncodeSize(zero, ext), CRLF);
    ReadSizeLine(s, zero, ext, 0);
    ReadTrailerEnd(Fold(s, EncodeSize(zero, ext)));
  }

  /** A body of known length: the bytes are delivered as they come, completion
      is signalled with the last of them, and not before. */
  lemma IdentityBodyIsDelivered(s: Run, xs: seq<Byte>)
    requires Live(s) && s.p.state == S_BODY_IDENTITY && 0 < |xs| <= s.p.contentLength
    ensures var t := Fold(s, xs);
            && Accepted(t) && t.p.contentLength == s.p.contentLength - |xs|
            && t.log == (var delivered := Emit(s.log, Data(Body, xs));
                         if |xs| == s.p.contentLength then Emit(delivered, Notified(MessageComplete)) else delivered)
  {
    hide Step, Fold;
    FoldBody(s, xs);
  }

  /** Section 3.3.3 of RFC 7230, over whole runs: with the default settings no
      byte of a body is delivered while the fields for both framing headers are set,
      and chunked reading implies that for a Transfer-Encoding. */
  lemma NoBodyWithBothLengths(s: Run, data: seq<Byte>, ch: Byte)
    requires Inv(s)
    ensures var t := Fold(s, data);
            var c := Counted(t.p);
            Live(t) && c.errno == CHPE_OK && Data(Body, [ch]) in Events(c, ch) ==>
              && (c.lenient || c.allowChunkedLength || !(c.usesTE && c.flags.contentLength))
              && (c.flags.chunked ==> c.usesTE)
  {
    FoldKeepsInv(s, data);
    var t := Fold(s, data);
    if Live(t) && Counted(t.p).errno == CHPE_OK {
      CountedIsReady(t.p);
      OnlyBodyStatesDeliver(Counted(t.p), ch);
    }
  }

  lemma OnlyBodyStatesDeliver(p: Parser, ch: Byte)
    ensures Data(Body, [ch]) in Events(p, ch) ==>
            p.state == S_CHUNK_DATA || p.state == S_BODY_IDENTITY || p.state == S_BODY_IDENTITY_EOF
  {
  }
}
