/** What header lines mean for the body that follows. */
module HttpFields {
  import opened HttpTypes
  import opened HttpStep
  import opened HttpInvariant
  import opened HttpFraming
  import opened HttpNames
  import opened HttpLines

  // What a value can do to the fields.

  /** What kind of header the value belongs to, once it has begun. */
  datatype Family = General | Connecting | Lengths | Transfers

  predicate InFamily(hs: HeaderState, family: Family) {
    match family
    case General => hs == H_GENERAL
    case Connecting =>
      || hs == H_GENERAL || hs == H_CONNECTION || hs == H_MATCHING_CONNECTION_KEEP_ALIVE
      || hs == H_MATCHING_CONNECTION_CLOSE || hs == H_CONNECTION_KEEP_ALIVE || hs == H_CONNECTION_CLOSE
    case Lengths => hs == H_CONTENT_LENGTH_NUM || hs == H_CONTENT_LENGTH_WS
    case Transfers =>
      || hs == H_GENERAL || hs == H_TRANSFER_ENCODING_CHUNKED
      || H_MATCHING_TRANSFER_ENCODING_TOKEN_START <= hs <= H_MATCHING_TRANSFER_ENCODING_TOKEN
  }

  function FamilyOf(hs: HeaderState): Family {
    match hs
    case H_CONNECTION => Connecting
    case H_CONTENT_LENGTH => Lengths
    case H_TRANSFER_ENCODING => Transfers
    case _ => General
  }

  /** Fields that values leave alone. */
  predicate Same(p: Parser, q: Parser) {
    && q.usesTE == p.usesTE && q.allowChunkedLength == p.allowChunkedLength && q.lenient == p.lenient
    && q.major == p.major && q.minor == p.minor && q.mthd == p.mthd && q.upgrade == p.upgrade && q.nread == p.nread
  }

  lemma StartEffect(p: Parser, ch: Byte)
    requires NameHs(p.hs) && p.errno == CHPE_OK
    ensures var q := OnValueStart(p, ch);
            && Same(p, q)
            && (q.errno == CHPE_OK <==> (p.hs == H_CONTENT_LENGTH ==> IsNum(ch) && !p.flags.contentLength))
            && (q.errno == CHPE_OK ==>
                  && InFamily(q.hs, FamilyOf(p.hs)) && q.index == 0
                  && q.contentLength == (if p.hs == H_CONTENT_LENGTH then Digit(ch) else p.contentLength)
                  && q.flags == p.flags.(upgrade := p.flags.upgrade || p.hs == H_UPGRADE,
                                         contentLength := p.flags.contentLength || p.hs == H_CONTENT_LENGTH))
  {
    hide ValueStartHs, InFamily, FamilyOf, NameHs, Lower, Digit;
    FamilyStart(p.hs, Lower(ch));
  }

  lemma FamilyStart(hs: HeaderState, c: char)
    requires NameHs(hs)
    ensures if hs == H_CONTENT_LENGTH then InFamily(H_CONTENT_LENGTH_NUM, FamilyOf(hs))
            else InFamily(ValueStartHs(hs, c), FamilyOf(hs))
  {
  }

  lemma ByteEffect(p: Parser, ch: Byte, family: Family)
    requires InFamily(p.hs, family) && p.errno == CHPE_OK
    ensures var q := ValueByte(p, ch);
            && Same(p, q) && q.flags == p.flags
            && (q.errno == CHPE_OK ==> InFamily(q.hs, family))
            && (family != Lengths ==> q.errno == CHPE_OK && q.contentLength == p.contentLength)
  {
    hide LengthDigit;
  }

  lemma FoldEffect(p: Parser, ch: Byte, family: Family)
    requires InFamily(p.hs, family) && p.errno == CHPE_OK && IsWs(ch)
    ensures var q := OnValueStart(FoldLine(p), ch);
            && Same(p, q) && q.flags == p.flags && q.errno == CHPE_OK && InFamily(q.hs, family)
            && q.contentLength == p.contentLength
  {
  }

  lemma {:induction false} ValuedEffect(p: Parser, xs: seq<Byte>)
    requires NameHs(p.hs) && p.errno == CHPE_OK && xs != []
    ensures var q := Valued(p, xs);
            && Same(p, q)
            && (p.hs != H_CONTENT_LENGTH ==> q.errno == CHPE_OK && q.contentLength == p.contentLength)
            && (q.errno == CHPE_OK ==>
                  && InFamily(q.hs, FamilyOf(p.hs)) && (p.hs == H_CONTENT_LENGTH ==> !p.flags.contentLength)
                  && q.flags == p.flags.(upgrade := p.flags.upgrade || p.hs == H_UPGRADE,
                                         contentLength := p.flags.contentLength || p.hs == H_CONTENT_LENGTH))
  {
    hide OnValueStart, ValueByte, InFamily;
    StartEffect(p, xs[0]);
    if |xs| > 1 {
      var init, last := xs[..|xs| - 1], xs[|xs| - 1];
      ValuedEffect(p, init);
      if Valued(p, init).errno == CHPE_OK {
        ByteEffect(Valued(p, init), last, FamilyOf(p.hs));
      }
      LengthsIff(p.hs);
    }
  }

  lemma LengthsIff(hs: HeaderState)
    ensures FamilyOf(hs) == Lengths <==> hs == H_CONTENT_LENGTH
  {
  }

  lemma {:induction false} ContinuedEffect(p: Parser, xs: seq<Byte>, family: Family)
    requires InFamily(p.hs, family) && p.errno == CHPE_OK && xs != [] && IsWs(xs[0])
    ensures var q := Valued(FoldLine(p), xs);
            && Same(p, q) && q.flags == p.flags && q.contentLength == p.contentLength
            && (family != Lengths ==> q.errno == CHPE_OK)
            && (q.errno == CHPE_OK ==> InFamily(q.hs, family) && (family == Lengths ==> q.hs == H_CONTENT_LENGTH_WS))
  {
    hide OnValueStart, ValueByte, InFamily;
    FoldEffect(p, xs[0], family);
    if |xs| > 1 {
      var init, last := xs[..|xs| - 1], xs[|xs| - 1];
      ContinuedEffect(p, init, family);
      if Valued(FoldLine(p), init).errno == CHPE_OK {
        ByteEffect(Valued(FoldLine(p), init), last, family);
        if family == Lengths {
          SpaceOnly(Valued(FoldLine(p), init), last);
        }
      }
    } else {
      FoldToSpaces(p, xs[0], family);
    }
  }

  lemma SpaceOnly(p: Parser, ch: Byte)
    requires p.hs == H_CONTENT_LENGTH_WS && p.errno == CHPE_OK
    ensures var q := ValueByte(p, ch);
            q.contentLength == p.contentLength && (q.errno == CHPE_OK ==> q.hs == H_CONTENT_LENGTH_WS)
  {
    hide LengthDigit;
  }

  lemma FoldToSpaces(p: Parser, ch: Byte, family: Family)
    requires InFamily(p.hs, family) && IsWs(ch)
    ensures family == Lengths ==> OnValueStart(FoldLine(p), ch).hs == H_CONTENT_LENGTH_WS
  {
  }

  lemma {:induction false} MoreEffect(p: Parser, more: seq<Continued>, family: Family)
    requires InFamily(p.hs, family) && p.errno == CHPE_OK && forall k :: 0 <= k < |more| ==> ContinuedOk(more[k])
    ensures var q := MoreRead(p, more);
            && Same(p, q) && q.flags == p.flags && q.contentLength == p.contentLength
            && (family != Lengths ==> q.errno == CHPE_OK) && (q.errno == CHPE_OK ==> InFamily(q.hs, family))
  {
    hide Valued, InFamily, SepWalk;
    if more != [] {
      var init, last := more[..|more| - 1], more[|more| - 1];
      MoreEffect(p, init, family);
      assert ContinuedOk(last);
      if MoreRead(p, init).errno == CHPE_OK {
        ContinuedEffect(MoreRead(p, init), last.text, family);
      }
    }
  }

  // What whole lines do.

  datatype Kind = SaysTransfer | SaysLength | SaysUpgrade | SaysChunked

  /** A line that says something about the body: its name begins like
      Transfer-Encoding, or it has a value and is a Content-Length, an Upgrade, or a
      Transfer-Encoding that ends in chunked. */
  predicate Does(l: Line, kind: Kind)
    requires LineOk(l)
  {
    match kind
    case SaysTransfer => LikeTransferEncoding(l.name)
    case SaysLength => l.value != [] && Named(l.name, CONTENT_LENGTH)
    case SaysUpgrade => l.value != [] && Named(l.name, UPGRADE)
    case SaysChunked => l.value != [] && Named(l.name, TRANSFER_ENCODING) && LineRead(INITIAL, l).hs == H_TRANSFER_ENCODING_CHUNKED
  }

  /** What a Content-Length says by itself, and whether it says something. */
  function LengthOf(l: Line): nat
    requires LineOk(l) && l.value != []
  {
    LineRead(INITIAL, l).contentLength
  }

  predicate LengthOk(l: Line)
    requires LineOk(l)
  {
    l.value != [] && LineRead(INITIAL, l).errno == CHPE_OK
  }

  /** Two parsers that read the same value alike. */
  predicate Alike(p: Parser, q: Parser) {
    && p.hs == q.hs && p.index == q.index && p.errno == q.errno
    && ((InFamily(p.hs, Lengths)) ==> p.contentLength == q.contentLength)
  }

  /** The fields that matter to a value, each by itself. */
  lemma StartIs(p: Parser, ch: Byte)
    requires p.errno == CHPE_OK
    ensures var q, length := OnValueStart(p, ch), p.hs == H_CONTENT_LENGTH;
            && q.index == 0
            && q.errno == (if !length then CHPE_OK else if !IsNum(ch) then CHPE_INVALID_CONTENT_LENGTH
                           else if p.flags.contentLength then CHPE_UNEXPECTED_CONTENT_LENGTH else CHPE_OK)
            && q.hs == (if !length then ValueStartHs(p.hs, Lower(ch)) else if q.errno == CHPE_OK then H_CONTENT_LENGTH_NUM else p.hs)
            && q.contentLength == (if length && q.errno == CHPE_OK then Digit(ch) else p.contentLength)
  {
    hide ValueStartHs, Lower, Digit, IsNum;
  }

  lemma StartAlike(p: Parser, q: Parser, ch: Byte)
    requires p.hs == q.hs && p.errno == q.errno == CHPE_OK
    requires p.hs == H_CONTENT_LENGTH ==> p.flags.contentLength == q.flags.contentLength
    requires InFamily(p.hs, Lengths) ==> p.contentLength == q.contentLength
    ensures Alike(OnValueStart(p, ch), OnValueStart(q, ch))
  {
    StartIs(p, ch);
    StartIs(q, ch);
    StartStays(p.hs, Lower(ch));
    hide OnValueStart, ValueStartHs, Lower, Digit, IsNum;
  }

  lemma StartStays(hs: HeaderState, c: char)
    ensures InFamily(ValueStartHs(hs, c), Lengths) ==> InFamily(hs, Lengths)
  {
  }

  lemma ByteIs(p: Parser, ch: Byte)
    requires p.errno == CHPE_OK
    ensures var q, m := ValueByte(p, ch), ValueNext(Matcher(p.hs, p.index), ch);
            var counts := m.Some? && m.value.hs == H_CONTENT_LENGTH_NUM;
            var n := LengthDigit(p.contentLength, Digit(ch));
            && q.errno == (if m.None? || (counts && n.Overflow?) then CHPE_INVALID_CONTENT_LENGTH else CHPE_OK)
            && q.hs == (if m.Some? then m.value.hs else p.hs) && q.index == (if m.Some? then m.value.index else p.index)
            && q.contentLength == (if counts && n.Length? then n.value else p.contentLength)
  {
    hide ValueNext, LengthDigit, Digit;
  }

  lemma ByteAlike(p: Parser, q: Parser, ch: Byte)
    requires Alike(p, q) && p.hs != H_CONTENT_LENGTH && p.errno == CHPE_OK
    ensures Alike(ValueByte(p, ch), ValueByte(q, ch))
  {
    ByteIs(p, ch);
    ByteIs(q, ch);
    NextStays(Matcher(p.hs, p.index), ch);
    hide LengthDigit, ValueNext, ValueByte, Digit;
  }

  lemma NextStays(m: Matcher, ch: Byte)
    requires m.hs != H_CONTENT_LENGTH
    ensures ValueNext(m, ch).Some? ==> (InFamily(ValueNext(m, ch).value.hs, Lengths) ==> InFamily(m.hs, Lengths))
  {
  }

  lemma {:induction false} ValuedAlike(p: Parser, q: Parser, xs: seq<Byte>)
    requires NameHs(p.hs) && p.hs == q.hs && p.errno == q.errno == CHPE_OK && xs != []
    requires p.hs == H_CONTENT_LENGTH ==> p.flags.contentLength == q.flags.contentLength
    ensures Alike(Valued(p, xs), Valued(q, xs))
  {
    hide OnValueStart, ValueByte, InFamily, Alike;
    if |xs| == 1 {
      NamesNoLength(p.hs);
      StartAlike(p, q, xs[0]);
    } else {
      var init, last := xs[..|xs| - 1], xs[|xs| - 1];
      ValuedAlike(p, q, init);
      ValuedEffect(p, init);
      Alikes(Valued(p, init), Valued(q, init));
      if Valued(p, init).errno == CHPE_OK {
        FamilyNoName(Valued(p, init).hs, FamilyOf(p.hs));
        ByteAlike(Valued(p, init), Valued(q, init), last);
      }
    }
  }

  lemma NamesNoLength(hs: HeaderState)
    requires NameHs(hs)
    ensures !InFamily(hs, Lengths)
  {
  }

  lemma FamilyNoName(hs: HeaderState, family: Family)
    requires InFamily(hs, family)
    ensures hs != H_CONTENT_LENGTH
  {
  }

  lemma Alikes(p: Parser, q: Parser)
    requires Alike(p, q)
    ensures p.hs == q.hs && p.errno == q.errno
  {
  }

  lemma FoldAlike(p: Parser, q: Parser)
    requires Alike(p, q)
    ensures Alike(FoldLine(p), FoldLine(q)) && (p.hs != H_CONTENT_LENGTH ==> FoldLine(p).hs != H_CONTENT_LENGTH)
  {
  }

  lemma {:induction false} ContinuedAlike(p: Parser, q: Parser, xs: seq<Byte>, family: Family)
    requires Alike(p, q) && InFamily(p.hs, family) && p.errno == CHPE_OK && xs != [] && IsWs(xs[0])
    ensures Alike(Valued(FoldLine(p), xs), Valued(FoldLine(q), xs))
  {
    hide OnValueStart, ValueByte, InFamily, FoldLine;
    FoldAlike(p, q);
    FamilyNoName(p.hs, family);
    if |xs| == 1 {
      ErrnoKept(p);
      StartAlike(FoldLine(p), FoldLine(q), xs[0]);
    } else {
      var init, last := xs[..|xs| - 1], xs[|xs| - 1];
      ContinuedAlike(p, q, init, family);
      ContinuedEffect(p, init, family);
      if Valued(FoldLine(p), init).errno == CHPE_OK {
        FamilyNoName(Valued(FoldLine(p), init).hs, family);
        ByteAlike(Valued(FoldLine(p), init), Valued(FoldLine(q), init), last);
      }
    }
  }

  lemma ErrnoKept(p: Parser)
    ensures FoldLine(p).errno == p.errno
  {
  }

  lemma {:induction false} MoreAlike(p: Parser, q: Parser, more: seq<Continued>, family: Family)
    requires Alike(p, q) && InFamily(p.hs, family) && p.errno == CHPE_OK && forall k :: 0 <= k < |more| ==> ContinuedOk(more[k])
    ensures Alike(MoreRead(p, more), MoreRead(q, more))
  {
    hide Valued, InFamily, SepWalk;
    if more != [] {
      var init, last := more[..|more| - 1], more[|more| - 1];
      MoreAlike(p, q, init, family);
      MoreEffect(p, init, family);
      assert ContinuedOk(last);
      if MoreRead(p, init).errno == CHPE_OK {
        ContinuedAlike(MoreRead(p, init), MoreRead(q, init), last.text, family);
      }
    }
  }

  predicate PrintableLine(p: Parser, l: Line) {
    Printable(p, l.value) && forall k :: 0 <= k < |l.more| ==> Printable(p, l.more[k].text)
  }

  lemma NameStates(name: seq<Byte>)
    requires name != [] && Tokens(name)
    ensures NameHs(Matched(Low(name)).hs)
  {
    NoSpaces(name);
    MatchedKnows(Low(name));
    hide Is, Begins, Matched, Low;
  }

  lemma BegunIs(p: Parser, l: Line)
    requires LineOk(l)
    ensures var b := Begun(p, l);
            && b.hs == Matched(Low(l.name)).hs && NameHs(b.hs) && b.errno == p.errno
            && b.flags == Ended(p).flags && b.contentLength == p.contentLength && b.nread == p.nread
            && b.usesTE == (p.usesTE || Does(l, SaysTransfer)) && Same(p.(usesTE := b.usesTE), b)
  {
    NameStates(l.name);
    hide HeaderFlags, Matched, Low, SepWalk, NameHs;
  }

  /** The value of a line is taken unless it is a Content-Length that may not be. */
  lemma TakenIff(p: Parser, l: Line)
    requires LineOk(l) && l.value != [] && p.errno == CHPE_OK
    ensures var v := Started(p, l);
            (v.errno == CHPE_OK && MoreRead(v, l.more).errno == CHPE_OK)
            <==> (Does(l, SaysLength) ==> !Ended(p).flags.contentLength && LengthOk(l))
    ensures (Does(l, SaysLength) ==> !Ended(p).flags.contentLength) ==>
              Started(p, l).errno == CHPE_OK && MoreRead(Started(p, l), l.more).errno == CHPE_OK ==>
                Alike(LineRead(p, l), LineRead(INITIAL, l))
  {
    NameIsKnown(l.name);
    BegunIs(p, l);
    BegunIs(INITIAL, l);
    InitialClear();
    hide LineText, SepWalk, Matched, Low, Named, NameRead, Begun, HeaderFlags, LikeTransferEncoding, InFamily, MoreRead, Valued, Same;
    hide Ended;
    var a, b, family := Begun(p, l), Begun(INITIAL, l), FamilyOf(Begun(p, l).hs);
    LengthsIff(a.hs);
    ValuedEffect(a, l.value);
    if Does(l, SaysLength) ==> !a.flags.contentLength {
      ValuedAlike(a, b, l.value);
      Alikes(Started(p, l), Started(INITIAL, l));
      if Started(p, l).errno == CHPE_OK {
        MoreEffect(Started(p, l), l.more, family);
        MoreAlike(Started(p, l), Started(INITIAL, l), l.more, family);
        Alikes(MoreRead(Started(p, l), l.more), MoreRead(Started(INITIAL, l), l.more));
        LineAlike(p, l);
      } else {
        MoreOfError(Started(INITIAL, l), l.more);
      }
    }
  }

  lemma InitialClear()
    ensures !Ended(INITIAL).flags.contentLength && INITIAL.errno == CHPE_OK
  {
  }

  lemma {:induction false} MoreOfError(p: Parser, more: seq<Continued>)
    requires p.errno != CHPE_OK && forall k :: 0 <= k < |more| ==> ContinuedOk(more[k])
    ensures MoreRead(p, more) == p
  {
    hide Valued, ContinuedOk;
    if more != [] {
      MoreOfError(p, more[..|more| - 1]);
    }
  }

  lemma LineAlike(p: Parser, l: Line)
    requires LineOk(l) && l.value != []
    requires Alike(MoreRead(Started(p, l), l.more), MoreRead(Started(INITIAL, l), l.more))
    ensures Alike(LineRead(p, l), LineRead(INITIAL, l))
  {
    hide LineText, SepWalk, Started, MoreRead, InFamily;
  }

  lemma TakenSplits(p: Parser, l: Line)
    requires LineOk(l) && l.value != []
    ensures LineTaken(p, l)
            <==> PrintableLine(p, l) && Started(p, l).errno == CHPE_OK && MoreRead(Started(p, l), l.more).errno == CHPE_OK
  {
    var v := Started(p, l);
    assert v.lenient == p.lenient by {
      BegunIs(p, l);
      ValuedStays(Begun(p, l), 0, l.value);
    }
    hide Started, SepWalk, MoreRead, Printable;
    SamePrintable(v, p, l.value);
    forall k | 0 <= k < |l.more| ensures Printable(v, l.more[k].text) == Printable(p, l.more[k].text) {
      SamePrintable(v, p, l.more[k].text);
    }
  }

  /** What a line did to the fields that decide about the body. */
  predicate Did(p: Parser, q: Parser, l: Line)
    requires LineOk(l)
  {
    && q.errno == CHPE_OK && Same(p.(usesTE := q.usesTE, nread := q.nread), q)
    && q.usesTE == (p.usesTE || Does(l, SaysTransfer))
    && q.contentLength == (if Does(l, SaysLength) then LengthOf(l) else p.contentLength)
    && var f, g := Ended(p).flags, Ended(q).flags;
       && g.contentLength == (f.contentLength || Does(l, SaysLength)) && g.upgrade == (f.upgrade || Does(l, SaysUpgrade))
       && g.chunked == (f.chunked || Does(l, SaysChunked)) && g.trailing == f.trailing && g.skipBody == f.skipBody
  }

  lemma EmptyDid(p: Parser, l: Line)
    requires p.errno == CHPE_OK && LineOk(l) && l.value == []
    ensures Did(p, LineRead(p, l), l)
  {
    BegunIs(p, l);
    hide LineText, SepWalk, Begun, HeaderFlags, LikeTransferEncoding;
  }

  lemma ValueDid(p: Parser, l: Line)
    requires p.errno == CHPE_OK && LineOk(l) && l.value != []
    requires Started(p, l).errno == CHPE_OK && MoreRead(Started(p, l), l.more).errno == CHPE_OK
    ensures Did(p, LineRead(p, l), l)
  {
    hide LineText, SepWalk, Begun, Valued, MoreRead, Matched, Low, Named, LikeTransferEncoding, Printable;
    hide InFamily, HeaderFlags, FamilyOf, Same, Does;
    var b, v := Begun(p, l), Started(p, l);
    var z := MoreRead(v, l.more);
    NamesKnown(p, l);
    BegunIs(p, l);
    ValuedEffect(b, l.value);
    MoreEffect(v, l.more, FamilyOf(b.hs));
    LengthOrChunked(p, l);
    ChunkedFlag(z.flags, z.hs);
    SameAll(p, b, v, z, LineRead(p, l));
  }

  lemma SameAll(p: Parser, b: Parser, v: Parser, z: Parser, q: Parser)
    requires Same(p.(usesTE := b.usesTE), b) && Same(b, v) && Same(v, z) && Same(z.(nread := q.nread), q)
    ensures q.usesTE == b.usesTE && Same(p.(usesTE := q.usesTE, nread := q.nread), q)
  {
  }

  lemma NamesKnown(p: Parser, l: Line)
    requires LineOk(l) && l.value != []
    ensures Begun(p, l).hs == H_CONTENT_LENGTH <==> Does(l, SaysLength)
    ensures Begun(p, l).hs == H_UPGRADE <==> Does(l, SaysUpgrade)
    ensures Begun(p, l).hs == H_TRANSFER_ENCODING <==> Named(l.name, TRANSFER_ENCODING)
    ensures Same(MoreRead(Started(p, l), l.more).(nread := LineRead(p, l).nread), LineRead(p, l))
  {
    NameIsKnown(l.name);
    hide LineText, SepWalk, Matched, Low, Named, LikeTransferEncoding, MoreRead, Started, Ended;
  }

  lemma LengthOrChunked(p: Parser, l: Line)
    requires p.errno == CHPE_OK && LineOk(l) && l.value != []
    requires Started(p, l).errno == CHPE_OK && MoreRead(Started(p, l), l.more).errno == CHPE_OK
    ensures var z := MoreRead(Started(p, l), l.more);
            && (z.hs == H_TRANSFER_ENCODING_CHUNKED <==> Does(l, SaysChunked))
            && (Does(l, SaysLength) ==> z.contentLength == LengthOf(l))
  {
    var b := Begun(p, l);
    NamesKnown(p, l);
    BegunIs(p, l);
    ValuedEffect(b, l.value);
    MoreEffect(Started(p, l), l.more, FamilyOf(b.hs));
    TakenIff(p, l);
    hide LineText, SepWalk, Begun, Started, MoreRead, Named, Printable, Same;
    var q := LineRead(p, l);
    ChunkedIn(q.hs, FamilyOf(b.hs));
    LengthIn(q.hs, FamilyOf(b.hs));
    LengthsIff(b.hs);
    TransfersIff(b.hs);
    hide InFamily, FamilyOf;
  }

  lemma TransfersIff(hs: HeaderState)
    ensures FamilyOf(hs) == Transfers <==> hs == H_TRANSFER_ENCODING
  {
  }

  lemma ChunkedIn(hs: HeaderState, family: Family)
    requires InFamily(hs, family)
    ensures hs == H_TRANSFER_ENCODING_CHUNKED ==> family == Transfers
  {
  }

  lemma LengthIn(hs: HeaderState, family: Family)
    requires InFamily(hs, family)
    ensures family == Lengths ==> InFamily(hs, Lengths)
  {
  }

  lemma ChunkedFlag(f: Flags, hs: HeaderState)
    ensures var g := HeaderFlags(f, hs);
            && g.chunked == (f.chunked || hs == H_TRANSFER_ENCODING_CHUNKED) && g.contentLength == f.contentLength
            && g.upgrade == f.upgrade && g.trailing == f.trailing && g.skipBody == f.skipBody
  {
  }

  /** Which lines are taken, and what they do. */
  lemma LineEffect(p: Parser, l: Line)
    requires p.errno == CHPE_OK && LineOk(l)
    ensures LineTaken(p, l)
            <==> PrintableLine(p, l) && (Does(l, SaysLength) ==> !Ended(p).flags.contentLength && LengthOk(l))
    ensures LineTaken(p, l) ==> Did(p, LineRead(p, l), l)
  {
    if l.value == [] {
      EmptyDid(p, l);
    } else {
      TakenSplits(p, l);
      TakenIff(p, l);
      hide LineTaken, PrintableLine, Did, Ended;
      if LineTaken(p, l) {
        ValueDid(p, l);
      }
    }
  }

  // What header blocks do.

  predicate Any(ls: seq<Line>, kind: Kind)
    requires LinesOk(ls)
  {
    exists k :: 0 <= k < |ls| && Does(ls[k], kind)
  }

  lemma AnyMore(ls: seq<Line>, l: Line, kind: Kind)
    requires LinesOk(ls) && LineOk(l)
    ensures LinesOk(ls + [l]) && (Any(ls + [l], kind) <==> Any(ls, kind) || Does(l, kind))
  {
    var all := ls + [l];
    assert all[|ls|] == l && forall k :: 0 <= k < |ls| ==> all[k] == ls[k];
    hide LineOk, Does;
    if Any(ls, kind) {
      var k :| 0 <= k < |ls| && Does(ls[k], kind);
      assert Does(all[k], kind);
    }
  }

  /** The length that a block states, or the one before. */
  function Stated(ls: seq<Line>, before: nat): nat
    requires LinesOk(ls)
  {
    if ls == [] then before
    else if Does(ls[|ls| - 1], SaysLength) then LengthOf(ls[|ls| - 1])
    else Stated(ls[..|ls| - 1], before)
  }

  /** A block that can be taken: its values are printable, and it states at most one
      length, as a number that the parser can hold. */
  predicate BlockOk(p: Parser, ls: seq<Line>)
    requires LinesOk(ls)
  {
    && (forall k :: 0 <= k < |ls| ==> PrintableLine(p, ls[k]))
    && (forall k :: 0 <= k < |ls| && Does(ls[k], SaysLength) ==> LengthOk(ls[k]))
    && forall j, k :: 0 <= j < k < |ls| ==> !(Does(ls[j], SaysLength) && Does(ls[k], SaysLength))
  }

  lemma BlockMore(p: Parser, ls: seq<Line>, l: Line)
    requires LinesOk(ls) && LineOk(l)
    ensures LinesOk(ls + [l])
    ensures BlockOk(p, ls + [l])
            <==> BlockOk(p, ls) && PrintableLine(p, l) && (Does(l, SaysLength) ==> LengthOk(l) && !Any(ls, SaysLength))
  {
    hide LineOk, Does, LengthOk, PrintableLine;
    var all, n := ls + [l], |ls|;
    assert all[n] == l && forall k :: 0 <= k < n ==> all[k] == ls[k];
    if BlockOk(p, all) {
      forall k | 0 <= k < n ensures PrintableLine(p, ls[k]) && (Does(ls[k], SaysLength) ==> LengthOk(ls[k])) {
        assert PrintableLine(p, all[k]);
      }
      forall j, k | 0 <= j < k < n ensures !(Does(ls[j], SaysLength) && Does(ls[k], SaysLength)) {
        assert !(Does(all[j], SaysLength) && Does(all[k], SaysLength));
      }
    }
  }

  /** What a header block did to the fields that decide about the body. */
  predicate BlockDid(p: Parser, q: Parser, ls: seq<Line>)
    requires LinesOk(ls)
  {
    && q.errno == CHPE_OK && Same(p.(usesTE := q.usesTE, nread := q.nread), q)
    && q.usesTE == (p.usesTE || Any(ls, SaysTransfer))
    && q.contentLength == Stated(ls, p.contentLength)
    && var f, g := Ended(p).flags, Ended(q).flags;
       && g.contentLength == (f.contentLength || Any(ls, SaysLength)) && g.upgrade == (f.upgrade || Any(ls, SaysUpgrade))
       && g.chunked == (f.chunked || Any(ls, SaysChunked)) && g.trailing == f.trailing && g.skipBody == f.skipBody
  }

  lemma BlockDidMore(p: Parser, q: Parser, r: Parser, ls: seq<Line>, l: Line)
    requires LinesOk(ls) && LineOk(l) && BlockDid(p, q, ls) && Did(q, r, l)
    ensures LinesOk(ls + [l]) && BlockDid(p, r, ls + [l])
  {
    AnyMore(ls, l, SaysTransfer);
    AnyMore(ls, l, SaysLength);
    AnyMore(ls, l, SaysUpgrade);
    AnyMore(ls, l, SaysChunked);
    assert (ls + [l])[..|ls|] == ls;
    hide Ended, Any, Does, LengthOf, LineOk;
  }

  /** Which header blocks are taken, and what they do. */
  lemma {:induction false} BlockEffect(p: Parser, ls: seq<Line>)
    requires p.errno == CHPE_OK && LinesOk(ls)
    ensures LinesTaken(p, ls) <==> BlockOk(p, ls) && !(Ended(p).flags.contentLength && Any(ls, SaysLength))
    ensures LinesTaken(p, ls) ==> BlockDid(p, LinesRead(p, ls), ls)
  {
    hide LineOk, LineRead, LineTaken, Did, Does, LengthOk, LengthOf, PrintableLine, Ended, BlockOk, Any;
    if ls == [] {
      NoLines(p);
    } else {
      var init, last := ls[..|ls| - 1], ls[|ls| - 1];
      assert ls == init + [last];
      BlockEffect(p, init);
      BlockMore(p, init, last);
      AnyMore(init, last, SaysLength);
      var q := LinesRead(p, init);
      if LinesTaken(p, init) {
        LineEffect(q, last);
        PrintableSame(p, q, last);
        if LineTaken(q, last) {
          BlockDidMore(p, q, LineRead(q, last), init, last);
        }
      }
    }
  }

  lemma NoLines(p: Parser)
    requires p.errno == CHPE_OK
    ensures BlockOk(p, []) && BlockDid(p, p, []) && !Any([], SaysLength)
  {
    hide Ended;
  }

  lemma PrintableSame(p: Parser, q: Parser, l: Line)
    requires p.lenient == q.lenient
    ensures PrintableLine(p, l) == PrintableLine(q, l)
  {
    hide Printable;
    SamePrintable(p, q, l.value);
    forall k | 0 <= k < |l.more| ensures Printable(p, l.more[k].text) == Printable(q, l.more[k].text) {
      SamePrintable(p, q, l.more[k].text);
    }
  }

  // Values by themselves.

  const CHUNKED := "chunked"

  function Lowered(xs: seq<Byte>): string { seq(|xs|, k requires 0 <= k < |xs| => Lower(xs[k])) }

  lemma LoweredMore(xs: seq<Byte>, ch: Byte)
    ensures Lowered(xs + [ch]) == Lowered(xs) + [Lower(ch)]
  {
  }

  /** The word, in any case of letters, and nothing but spaces behind it. */
  predicate IsChunked(xs: seq<Byte>) {
    |xs| >= 7 && Lowered(xs[..7]) == CHUNKED && forall k :: 7 <= k < |xs| ==> xs[k] == ' '
  }

  /** What the matcher should know about a transfer coding. */
  function Coding(xs: seq<Byte>): HeaderState {
    if IsChunked(xs) then H_TRANSFER_ENCODING_CHUNKED
    else if Begins(Lowered(xs), CHUNKED) then H_MATCHING_TRANSFER_ENCODING_CHUNKED
    else H_MATCHING_TRANSFER_ENCODING_TOKEN
  }

  lemma IsChunkedMore(xs: seq<Byte>, ch: Byte)
    ensures IsChunked(xs + [ch])
            <==> (IsChunked(xs) && ch == ' ') || Is(Lowered(xs) + [Lower(ch)], CHUNKED)
  {
    var all := xs + [ch];
    LoweredMore(xs, ch);
    assert all[|xs|] == ch && forall k :: 0 <= k < |xs| ==> all[k] == xs[k];
    if |xs| >= 7 {
      assert all[..7] == xs[..7];
    } else if |xs| == 6 {
      assert all[..7] == all;
    }
  }

  lemma {:induction false} CodingIs(p: Parser, xs: seq<Byte>)
    requires p.hs == H_TRANSFER_ENCODING && p.errno == CHPE_OK && xs != [] && ',' !in xs
    ensures var q := Valued(p, xs);
            q.errno == CHPE_OK && q.hs == Coding(xs) && (Begins(Lowered(xs), CHUNKED) ==> q.index == |xs| - 1)
  {
    hide OnValueStart, ValueByte, Lower, IsChunked, Begins, Is;
    if |xs| == 1 {
      StartIs(p, xs[0]);
      CodingStarts(xs[0]);
      assert xs == [xs[0]];
    } else {
      var init, last := xs[..|xs| - 1], xs[|xs| - 1];
      assert xs == init + [last];
      CodingIs(p, init);
      ByteIs(Valued(p, init), last);
      CodingMore(Matcher(Valued(p, init).hs, Valued(p, init).index), init, last);
      hide Valued, Coding;
    }
  }

  lemma CodingStarts(ch: Byte)
    ensures Coding([ch])
            == if Lower(ch) == 'c' then H_MATCHING_TRANSFER_ENCODING_CHUNKED else H_MATCHING_TRANSFER_ENCODING_TOKEN
  {
    hide Lower;
    assert Lowered([ch]) == [Lower(ch)] && CHUNKED[..1] == "c";
  }

  lemma CodingMore(m: Matcher, xs: seq<Byte>, ch: Byte)
    requires xs != [] && ch != ',' && m.hs == Coding(xs) && (Begins(Lowered(xs), CHUNKED) ==> m.index == |xs| - 1)
    ensures var n := ValueNext(m, ch);
            && n.Some? && n.value.hs == Coding(xs + [ch])
            && (Begins(Lowered(xs + [ch]), CHUNKED) ==> n.value.index == |xs|)
  {
    var low, c := Lowered(xs), Lower(ch);
    LoweredMore(xs, ch);
    IsChunkedMore(xs, ch);
    MoreOf(low, c, CHUNKED);
    NotBoth(xs);
    NotBoth(xs + [ch]);
    hide IsChunked, Lower;
    if Begins(low, CHUNKED) {
      MatchWordIs(m, low, c, CHUNKED, H_TRANSFER_ENCODING_CHUNKED, H_MATCHING_TRANSFER_ENCODING_TOKEN);
    }
    hide Begins, Is, MatchWord;
  }

  lemma NotBoth(xs: seq<Byte>)
    ensures IsChunked(xs) ==> !Begins(Lowered(xs), CHUNKED)
  {
  }

  /** A Transfer-Encoding with one coding makes the body chunked exactly if that is
      the word chunked. */
  lemma ChunkedIff(l: Line)
    requires LineOk(l) && l.more == [] && ',' !in l.value && Named(l.name, TRANSFER_ENCODING)
    ensures Does(l, SaysChunked) <==> IsChunked(l.value)
  {
    if l.value != [] {
      NameIsKnown(l.name);
      BegunIs(INITIAL, l);
      CodingIs(Begun(INITIAL, l), l.value);
      hide Begun, Valued, LineText, SepWalk, Named, IsChunked, Begins;
    }
  }

  /** How many digits a text begins with. */
  function Leading(xs: seq<Byte>): (n: nat)
    ensures n <= |xs| && Digits(xs[..n]) && (n < |xs| ==> !IsNum(xs[n]))
  {
    if xs == [] then 0
    else
      var init := xs[..|xs| - 1];
      var n := Leading(init);
      assert xs[..n] == init[..n];
      if n == |init| && IsNum(xs[n]) then assert xs[..n + 1] == xs; n + 1 else n
  }

  /** Digits of a number that the parser can hold, and nothing but spaces behind. */
  predicate IsLength(xs: seq<Byte>) {
    var n := Leading(xs);
    n > 0 && Decimal(0, xs[..n - 1]) <= (ULLONG_MAX - 10) / 10 && Spaces(xs, n)
  }

  predicate Spaces(xs: seq<Byte>, n: nat) { forall k :: n <= k < |xs| ==> xs[k] == ' ' }

  lemma IsLengthMore(xs: seq<Byte>, ch: Byte)
    requires xs != []
    ensures var n := Leading(xs);
            IsLength(xs + [ch])
            <==> IsLength(xs) && (ch == ' ' || (n == |xs| && IsNum(ch) && Decimal(0, xs) <= (ULLONG_MAX - 10) / 10))
    ensures Leading(xs + [ch]) == if Leading(xs) == |xs| && IsNum(ch) then |xs| + 1 else Leading(xs)
  {
    hide Decimal, Leading, Digits, Digit, Spaces;
    var all, n := xs + [ch], Leading(xs);
    LeadingMore(xs, ch);
    if n == |xs| && IsNum(ch) {
      DecimalOne(0, xs);
      Tenth(Decimal(0, xs[..|xs| - 1]), Digit(xs[|xs| - 1]));
      assert all[..|xs|] == xs;
      SpacesEnd(xs);
      SpacesEnd(all);
    } else {
      SpacesMore(xs, ch, n);
      assert n > 0 ==> all[..n - 1] == xs[..n - 1];
    }
  }

  lemma Tenth(n: nat, digit: nat)
    ensures n * 10 + digit <= (ULLONG_MAX - 10) / 10 ==> n <= (ULLONG_MAX - 10) / 10
  {
  }

  lemma LeadingMore(xs: seq<Byte>, ch: Byte)
    ensures Leading(xs + [ch]) == if Leading(xs) == |xs| && IsNum(ch) then |xs| + 1 else Leading(xs)
  {
    hide Digits;
    assert (xs + [ch])[..|xs|] == xs;
  }

  lemma SpacesEnd(xs: seq<Byte>)
    ensures Spaces(xs, |xs|)
  {
  }

  lemma SpacesMore(xs: seq<Byte>, ch: Byte, n: nat)
    requires n <= |xs|
    ensures Spaces(xs + [ch], n) <==> Spaces(xs, n) && ch == ' '
  {
    assert (xs + [ch])[|xs|] == ch && forall k :: 0 <= k < |xs| ==> (xs + [ch])[k] == xs[k];
  }

  lemma {:induction false} LengthIs(p: Parser, xs: seq<Byte>)
    requires p.hs == H_CONTENT_LENGTH && p.errno == CHPE_OK && !p.flags.contentLength && xs != []
    ensures var q, n := Valued(p, xs), Leading(xs);
            && (q.errno == CHPE_OK <==> IsLength(xs))
            && (q.errno == CHPE_OK ==>
                  && q.contentLength == Decimal(0, xs[..n]) < ULLONG_MAX
                  && q.hs == if n == |xs| then H_CONTENT_LENGTH_NUM else H_CONTENT_LENGTH_WS)
  {
    if |xs| == 1 {
      StartIs(p, xs[0]);
      FirstOfLength(xs[0]);
      assert xs == [xs[0]];
    } else {
      var init, last := xs[..|xs| - 1], xs[|xs| - 1];
      assert xs == init + [last];
      LengthIs(p, init);
      IsLengthMore(init, last);
      var q := Valued(p, init);
      if q.errno == CHPE_OK {
        ByteIs(q, last);
        MoreOfLength(Matcher(q.hs, q.index), last);
        LengthDigitIsExact(q.contentLength, Digit(last));
        DecimalMore(init, last);
        hide ValueByte, ValueNext, LengthDigit, Decimal, IsLength;
      }
    }
  }

  lemma FirstOfLength(ch: Byte)
    ensures IsLength([ch]) <==> IsNum(ch)
    ensures Leading([ch]) == if IsNum(ch) then 1 else 0
    ensures [ch][..1] == [ch] && Decimal(0, [ch]) == Digit(ch)
  {
    assert [ch][..0] == [] && Leading([]) == 0;
    DecimalNone(0);
    DecimalOne(0, [ch]);
  }

  lemma MoreOfLength(m: Matcher, ch: Byte)
    requires m.hs == H_CONTENT_LENGTH_NUM || m.hs == H_CONTENT_LENGTH_WS
    ensures ValueNext(m, ch)
            == if ch == ' ' then Some(Matcher(H_CONTENT_LENGTH_WS, m.index))
               else if IsNum(ch) && m.hs == H_CONTENT_LENGTH_NUM then Some(m) else None
  {
  }

  lemma DecimalMore(xs: seq<Byte>, ch: Byte)
    ensures Leading(xs) == |xs| ==> xs[..Leading(xs)] == xs && Decimal(0, xs + [ch]) == Decimal(0, xs) * 10 + Digit(ch)
    ensures (xs + [ch])[..Leading(xs)] == xs[..Leading(xs)] && (xs + [ch])[..|xs| + 1] == xs + [ch]
  {
    DecimalOne(0, xs + [ch]);
    assert (xs + [ch])[..|xs|] == xs;
  }

  /** A Content-Length says what its digits write, and is refused without any. */
  lemma LengthIff(l: Line)
    requires LineOk(l) && l.more == [] && Does(l, SaysLength)
    ensures LengthOk(l) <==> IsLength(l.value)
    ensures LengthOk(l) ==> LengthOf(l) == Decimal(0, l.value[..Leading(l.value)]) < ULLONG_MAX
  {
    NameIsKnown(l.name);
    BegunIs(INITIAL, l);
    InitialClear();
    LengthIs(Begun(INITIAL, l), l.value);
    hide Begun, Valued, LineText, SepWalk, Named, IsLength, Decimal, Ended;
  }
}
