/** Whole messages: what their header lines say about their bodies, and what is
    delivered. */
module HttpMessages {
  import opened HttpTypes
  import opened HttpStep
  import opened HttpInvariant
  import opened HttpFold
  import opened HttpNames
  import opened HttpLines
  import opened HttpFields
  import opened HttpMethods
  import opened HttpFraming
  import opened HttpHead

  /** A request for another protocol, which has no body. */
  predicate AsksUpgrade(h: Head)
    requires HeadOk(h)
  {
    Any(h.lines, SaysUpgrade) || h.mthd == M_CONNECT
  }

  /** The header lines say how long the body is, in a way that the settings allow:
      no length beside a transfer coding, and chunked for a request with a body. */
  predicate Framing(p: Parser, h: Head)
    requires HeadOk(h)
  {
    && !(Any(h.lines, SaysTransfer) && Any(h.lines, SaysLength)
         && (if Any(h.lines, SaysChunked) then !p.allowChunkedLength else !p.lenient))
    && (AsksUpgrade(h) || Any(h.lines, SaysChunked) || !Any(h.lines, SaysTransfer) || p.lenient)
  }

  /** There is no body behind these header lines. */
  predicate Bodyless(h: Head)
    requires HeadOk(h)
  {
    || AsksUpgrade(h)
    || (!Any(h.lines, SaysChunked) && !Any(h.lines, SaysTransfer)
        && (Stated(h.lines, ULLONG_MAX) == 0 || Stated(h.lines, ULLONG_MAX) == ULLONG_MAX))
  }

  lemma FramingIs(p: Parser, h: Head, q: Parser)
    requires HeadOk(h) && BlockDid(LineStart(p, h), q, h.lines) && q.state == S_HEADER_FIELD_START
    ensures EndOk(q) <==> Framing(p, h)
    ensures Complete(q) <==> Bodyless(h)
    ensures Upgrades(q) <==> AsksUpgrade(h)
    ensures q.flags.chunked <==> Any(h.lines, SaysChunked)
    ensures q.usesTE <==> Any(h.lines, SaysTransfer)
    ensures q.contentLength == Stated(h.lines, ULLONG_MAX)
    ensures q.flags.contentLength <==> Any(h.lines, SaysLength)
    ensures q.lenient == p.lenient
  {
    hide Any, Stated, LineOk, MethodString, LineOf, TailOk, AllIdle, AllInner;
  }

  /** Everything else that a head needs to be accepted. */
  predicate Takable(s: Run, h: Head)
    requires HeadOk(h)
  {
    s.p.nread + |HeadText(h)| <= MAX_HEADER_SIZE && TargetOk(h.mthd, h.target) && BlockOk(s.p, h.lines)
  }

  /** Exactly which heads are accepted, by their header lines alone. */
  lemma HeadIsAcceptedIff(s: Run, h: Head)
    requires InHead(s) && s.p.state == S_START_REQ && HeadOk(h)
    ensures Accepted(Fold(s, HeadText(h))) <==> Takable(s, h) && Framing(s.p, h)
    ensures Accepted(Fold(s, HeadText(h))) ==>
              var t, headed := Fold(s, HeadText(h)), Emit(HeadLog(s.log, h), Notified(HeadersComplete));
              && t.log == (if Bodyless(h) then Emit(headed, Notified(MessageComplete)) else headed)
              && t.stopped == AsksUpgrade(h)
  {
    hide Fold, HeadText, HeadLog, BlockDid, BlockOk, EndOk, Complete, Upgrades, Framing, Bodyless, AsksUpgrade, TargetOk, Emit;
    assert LinesOk(h.lines);
    HeadIsRead(s, h);
    if BlockOk(s.p, h.lines) {
      HeadedDid(s.p, h);
      FramingIs(s.p, h, Headed(s.p, h));
    }
  }

  lemma HeadedDid(p: Parser, h: Head)
    requires p.errno == CHPE_OK && HeadOk(h) && BlockOk(p, h.lines)
    ensures BlockDid(LineStart(p, h), Headed(p, h), h.lines) && Headed(p, h).state == S_HEADER_FIELD_START
  {
    hide BlockDid, BlockOk, LineOk, LinesRead, LinesTaken, MethodString, VersionText, VersionOk, AllInner;
    var q := LineStart(p, h);
    BlockEffect(q, h.lines);
    SameBlock(p, q, h.lines);
    DidKeeps(q, LinesRead(q, h.lines), h.lines);
  }

  // Section 3.3.3 of RFC 7230.

  /** A head with a Content-Length beside a Transfer-Encoding, or a longer name of that
      beginning, is refused with the default settings, and nothing behind it is read. */
  lemma NoBodyWithBothHeaders(s: Run, h: Head, data: seq<Byte>)
    requires InHead(s) && s.p.state == S_START_REQ && HeadOk(h) && !s.p.lenient && !s.p.allowChunkedLength
    requires Any(h.lines, SaysTransfer) && Any(h.lines, SaysLength)
    ensures !Accepted(Fold(s, HeadText(h))) && Fold(s, HeadText(h) + data) == Fold(s, HeadText(h))
  {
    hide Fold, HeadText, Takable, HeadOk;
    HeadIsAcceptedIff(s, h);
    FoldConcat(s, HeadText(h), data);
    RefusedForGood(Fold(s, HeadText(h)), data);
  }

  /** A name that is longer than Transfer-Encoding is another header, yet the parser
      takes it for a transfer coding that is not chunked: a head with such a name and no
      Transfer-Encoding, with nothing else to refuse, is accepted exactly if it asks for
      an upgrade and states no length. */
  lemma LongerNameIsRefusedIff(s: Run, h: Head)
    requires InHead(s) && s.p.state == S_START_REQ && HeadOk(h) && !s.p.lenient && Takable(s, h)
    requires Any(h.lines, SaysTransfer) && forall k :: 0 <= k < |h.lines| ==> !Named(h.lines[k].name, TRANSFER_ENCODING)
    ensures Accepted(Fold(s, HeadText(h))) <==> AsksUpgrade(h) && !Any(h.lines, SaysLength)
  {
    assert !Any(h.lines, SaysChunked);
    hide Fold, HeadText, HeadOk, Takable, AsksUpgrade, Any;
    HeadIsAcceptedIff(s, h);
  }

  // Whole messages.

  /** A line that says nothing about the body: any name, unless it begins like
      Transfer-Encoding or is Content-Length or Upgrade with a value. */
  predicate SaysNothing(l: Line)
    requires LineOk(l)
  {
    !Does(l, SaysTransfer) && !Does(l, SaysLength) && !Does(l, SaysUpgrade)
  }

  lemma NoneSays(ls: seq<Line>)
    requires LinesOk(ls) && forall k :: 0 <= k < |ls| ==> SaysNothing(ls[k])
    ensures !Any(ls, SaysTransfer) && !Any(ls, SaysLength) && !Any(ls, SaysUpgrade) && !Any(ls, SaysChunked)
    ensures Stated(ls, ULLONG_MAX) == ULLONG_MAX
  {
    hide LineOk;
    ChunkedIsTransfer(ls);
    NothingStated(ls);
    hide Does, Stated;
  }

  lemma {:induction false} NothingStated(ls: seq<Line>)
    requires LinesOk(ls) && !Any(ls, SaysLength)
    ensures Stated(ls, ULLONG_MAX) == ULLONG_MAX
  {
    hide LineOk, Does;
    if ls != [] {
      var init, last := ls[..|ls| - 1], ls[|ls| - 1];
      AnyMore(init, last, SaysLength);
      assert ls == init + [last];
      NothingStated(init);
    }
  }

  lemma ChunkedIsTransfer(ls: seq<Line>)
    requires LinesOk(ls)
    ensures Any(ls, SaysChunked) ==> Any(ls, SaysTransfer)
  {
    forall k | 0 <= k < |ls| ensures Does(ls[k], SaysChunked) ==> Does(ls[k], SaysTransfer) {
      var l := ls[k];
      hide LineRead;
    }
    hide Does, LineOk;
  }

  /** A request whose headers say nothing about a body is accepted if it fits, its
      target is one and its values are printable, and is complete at its empty line. */
  lemma PlainHeadIsComplete(s: Run, h: Head)
    requires InHead(s) && s.p.state == S_START_REQ && HeadOk(h) && h.mthd != M_CONNECT
    requires forall k :: 0 <= k < |h.lines| ==> SaysNothing(h.lines[k])
    ensures var t := Fold(s, HeadText(h));
            && (Accepted(t)
                <==> s.p.nread + |HeadText(h)| <= MAX_HEADER_SIZE && TargetOk(h.mthd, h.target)
                     && forall k :: 0 <= k < |h.lines| ==> PrintableLine(s.p, h.lines[k]))
            && (Accepted(t) ==>
                  t.log == Emit(Emit(HeadLog(s.log, h), Notified(HeadersComplete)), Notified(MessageComplete)))
  {
    NoneSays(h.lines);
    assert BlockOk(s.p, h.lines) <==> forall k :: 0 <= k < |h.lines| ==> PrintableLine(s.p, h.lines[k]) by {
      hide Does, LineOk, PrintableLine;
    }
    hide Fold, HeadText, HeadLog, BlockOk, Any, SaysNothing, PrintableLine, Emit;
    HeadIsAcceptedIff(s, h);
  }

  /** The parser behind a head with a body. */
  lemma BodyStarts(s: Run, h: Head)
    requires InHead(s) && s.p.state == S_START_REQ && HeadOk(h) && !Bodyless(h) && Accepted(Fold(s, HeadText(h)))
    ensures var t := Fold(s, HeadText(h));
            && Live(t) && t.log == Emit(HeadLog(s.log, h), Notified(HeadersComplete)) && t.p.nread == 0
            && t.p.contentLength == Stated(h.lines, ULLONG_MAX)
            && (t.p.flags.contentLength <==> Any(h.lines, SaysLength)) && t.p.lenient == s.p.lenient
            && t.p.state == if Any(h.lines, SaysChunked) then S_CHUNK_SIZE_START
                            else if Any(h.lines, SaysTransfer) then S_BODY_IDENTITY_EOF else S_BODY_IDENTITY
  {
    assert LinesOk(h.lines);
    HeadIsRead(s, h);
    HeadedDid(s.p, h);
    FramingIs(s.p, h, Headed(s.p, h));
    assert !AsksUpgrade(h);
    hide Fold, HeadText, HeadLog, BlockDid, BlockOk, EndOk, Complete, Upgrades, Bodyless, AsksUpgrade, TargetOk, Any, Emit;
  }

  /** A message with a Content-Length: exactly that many bytes are its body, whatever
      they are, and the last of them completes it. */
  lemma LengthMessage(s: Run, h: Head, body: seq<Byte>)
    requires InHead(s) && s.p.state == S_START_REQ && HeadOk(h) && Takable(s, h)
    requires !Any(h.lines, SaysTransfer) && !AsksUpgrade(h) && 0 < Stated(h.lines, ULLONG_MAX) < ULLONG_MAX
    requires 0 < |body| <= Stated(h.lines, ULLONG_MAX)
    ensures var t := Fold(s, HeadText(h) + body);
            var delivered := Emit(Emit(HeadLog(s.log, h), Notified(HeadersComplete)), Data(Body, body));
            && Accepted(t)
            && t.log == if |body| == Stated(h.lines, ULLONG_MAX) then Emit(delivered, Notified(MessageComplete)) else delivered
  {
    ChunkedIsTransfer(h.lines);
    hide Fold, HeadText, HeadLog, Any, AsksUpgrade, Takable, HeadOk, Emit;
    HeadIsAcceptedIff(s, h);
    BodyStarts(s, h);
    FoldConcat(s, HeadText(h), body);
    IdentityBodyIsDelivered(Fold(s, HeadText(h)), body);
  }

  // Chunked messages.

  /** The fields behind the last chunk. */
  function TrailerStart(p: Parser): Parser {
    p.(nread := 0, contentLength := 0, state := S_HEADER_FIELD_START, flags := p.flags.(trailing := true))
  }

  lemma TrailingStays(p: Parser, ls: seq<Line>)
    requires p.errno == CHPE_OK && LinesOk(ls) && LinesTaken(p, ls)
    ensures Ended(LinesRead(p, ls)).flags.trailing == Ended(p).flags.trailing
  {
    hide LinesOk, LinesTaken, LinesRead, Ended, Any, Stated;
    BlockEffect(p, ls);
  }

  lemma TrailerFacts(s: Run)
    requires AtChunk(s)
    ensures var u := s.(p := TrailerStart(s.p));
            && InHead(u) && AtLine(u.p.state) && EndedLog(u) == u.log && u.p.errno == CHPE_OK && u.p.nread == 0
            && Ended(u.p) == u.p && u.p.flags.trailing
  {
  }

  /** The last chunk, any trailer, and the empty line: exactly which are accepted. The
      names and values of the trailer are delivered in order, and completion is
      signalled once. */
  lemma TrailerIsRead(s: Run, zero: seq<Byte>, ext: seq<Byte>, ls: seq<Line>, eol: seq<Byte>)
    requires AtChunk(s) && SizeLineOk(zero, ext, 0) && LinesOk(ls) && IsEol(eol)
    ensures var t := Fold(s, EncodeSize(zero, ext) + (LinesText(ls) + eol));
            && (Accepted(t)
                <==> |LinesText(ls) + eol| <= MAX_HEADER_SIZE && BlockOk(s.p, ls)
                     && !(s.p.flags.contentLength && Any(ls, SaysLength)))
            && (Accepted(t) ==> t.log == Emit(LinesLog(s.log, ls), Notified(MessageComplete)))
  {
    hide Fold, AtChunk, SizeLineOk, EncodeSize, LinesOk, LinesText, LinesTaken, LinesRead, LinesLog, BlockOk, Any, Emit, IsEol,
         Ended, EndedLog;
    var u := s.(p := TrailerStart(s.p));
    FoldConcat(s, EncodeSize(zero, ext), LinesText(ls) + eol);
    ReadSizeLine(s, zero, ext, 0);
    TrailerFacts(s);
    BlockEffect(u.p, ls);
    SameBlock(s.p, u.p, ls);
    Prefix(u, LinesText(ls), eol);
    LinesAreRead(u, ls);
    var v := Fold(u, LinesText(ls));
    if Accepted(v) {
      LinesStay(u.p, ls);
      TrailingStays(u.p, ls);
      TrailerEnds(v, eol);
    }
  }

  /** The chunks of a body, if there are any. */
  function ChunksLog(log: Log, cs: seq<Chunk>): Log {
    if cs == [] then log else Emit(log, Data(Body, Payload(cs)))
  }

  lemma ChunksAreRead(s: Run, cs: seq<Chunk>)
    requires AtChunk(s) && ChunksOk(cs)
    ensures var t := Fold(s, EncodeChunks(cs));
            && AtChunk(t) && t.log == ChunksLog(s.log, cs) && t.p.flags == s.p.flags && t.p.lenient == s.p.lenient
  {
    hide Fold, ChunkOk, EncodeChunk;
    if cs == [] {
      FoldNone(s);
    } else {
      ReadChunks(s, cs);
    }
  }

  /** A chunked message, with any trailer: exactly which are accepted. The data of its
      chunks, joined, is its body, and the line feed behind the trailer completes it. */
  lemma ChunkedMessage(s: Run, h: Head, cs: seq<Chunk>, zero: seq<Byte>, ext: seq<Byte>, ls: seq<Line>, eol: seq<Byte>)
    requires InHead(s) && s.p.state == S_START_REQ && HeadOk(h) && Takable(s, h)
    requires Any(h.lines, SaysChunked) && !AsksUpgrade(h) && (Any(h.lines, SaysLength) ==> s.p.allowChunkedLength)
    requires ChunksOk(cs) && SizeLineOk(zero, ext, 0) && LinesOk(ls) && IsEol(eol)
    ensures var t := Fold(s, HeadText(h) + (EncodeChunks(cs) + (EncodeSize(zero, ext) + (LinesText(ls) + eol))));
            && (Accepted(t)
                <==> |LinesText(ls) + eol| <= MAX_HEADER_SIZE && BlockOk(s.p, ls)
                     && !(Any(h.lines, SaysLength) && Any(ls, SaysLength)))
            && (Accepted(t) ==>
                  var headed := Emit(HeadLog(s.log, h), Notified(HeadersComplete));
                  t.log == Emit(LinesLog(ChunksLog(headed, cs), ls), Notified(MessageComplete)))
  {
    hide Fold, HeadText, HeadLog, Any, AsksUpgrade, Takable, HeadOk, Emit, ChunksOk, SizeLineOk, LinesOk, LinesText, LinesLog,
         BlockOk, IsEol, EncodeSize, EncodeChunks, ChunksLog;
    var last := EncodeSize(zero, ext) + (LinesText(ls) + eol);
    HeadIsAcceptedIff(s, h);
    BodyStarts(s, h);
    FoldConcat(s, HeadText(h), EncodeChunks(cs) + last);
    var a := Fold(s, HeadText(h));
    FoldConcat(a, EncodeChunks(cs), last);
    ChunksAreRead(a, cs);
    var b := Fold(a, EncodeChunks(cs));
    TrailerIsRead(b, zero, ext, ls, eol);
    SameBlock(s.p, b.p, ls);
  }

  /** The length stated is that of the one line that states one. */
  lemma {:induction false} StatedIs(p: Parser, ls: seq<Line>, k: nat)
    requires LinesOk(ls) && BlockOk(p, ls) && k < |ls| && Does(ls[k], SaysLength)
    ensures Stated(ls, ULLONG_MAX) == LengthOf(ls[k])
  {
    hide LineOk, Does, LengthOf, PrintableLine, LengthOk;
    var init, last := ls[..|ls| - 1], ls[|ls| - 1];
    if k < |init| {
      assert ls == init + [last];
      BlockMore(p, init, last);
      assert init[k] == ls[k];
      StatedIs(p, init, k);
    }
  }

  // Two requests as they may come.

  /** GET / HTTP/1.1 with these lines. */
  function Simple(lines: seq<Line>): Head {
    var version := Version([], ['H', 'T', 'T', 'P'], '1', '1', [CR, LF]);
    Head([], M_GET, [], ['/'], Versioned(version), lines, [CR, LF])
  }

  lemma SimpleIsOk(lines: seq<Line>)
    requires LinesOk(lines)
    ensures var h := Simple(lines);
            HeadOk(h) && TargetOk(h.mthd, h.target) && |HeadText(h)| == 18 + |LinesText(lines)|
  {
    PathIsTarget(M_GET, ['/']);
    hide TargetOk, LineOk;
  }

  const LONGER: seq<Byte> :=
    ['T', 'r', 'a', 'n', 's', 'f', 'e', 'r', '-', 'E', 'n', 'c', 'o', 'd', 'i', 'n', 'g', 's']

  lemma LongerIsLike()
    ensures Tokens(LONGER) && LikeTransferEncoding(LONGER)
    ensures !Named(LONGER, TRANSFER_ENCODING) && !Named(LONGER, UPGRADE) && !Named(LONGER, CONTENT_LENGTH)
  {
    var low := Low(LONGER);
    assert low == "transfer-encodings";
    assert low[..17] == TRANSFER_ENCODING;
  }

  lemma CrLfEnds()
    ensures SepWalk(S_HEADER_VALUE, [CR, LF]) == Some(S_HEADER_VALUE_LWS)
    ensures SepWalk(S_HEADER_VALUE_DISCARD_WS, [CR, LF]) == Some(S_HEADER_VALUE_DISCARD_LWS)
    ensures SepWalk(S_HEADER_VALUE_DISCARD_WS, [' ']) == Some(S_HEADER_VALUE_DISCARD_WS)
    ensures SepWalk(S_HEADER_VALUE_DISCARD_WS, []) == Some(S_HEADER_VALUE_DISCARD_WS)
  {
    SepOne(S_HEADER_VALUE, CR);
    SepOne(S_HEADER_ALMOST_DONE, LF);
    SepConcat(S_HEADER_VALUE, [CR], [LF]);
    SepOne(S_HEADER_VALUE_DISCARD_WS, CR);
    SepOne(S_HEADER_VALUE_DISCARD_WS_ALMOST_DONE, LF);
    SepConcat(S_HEADER_VALUE_DISCARD_WS, [CR], [LF]);
    SepOne(S_HEADER_VALUE_DISCARD_WS, ' ');
    var eol: seq<Byte> := [CR, LF];
    assert [CR] + [LF] == eol;
    hide SepWalk;
    SepNone(S_HEADER_VALUE_DISCARD_WS);
  }

  lemma SepNone(st: State)
    ensures SepWalk(st, []) == Some(st)
  {
  }

  /** The request with the single header "Transfer-Encodings: x" is refused. */
  lemma LongerNameIsRefused()
    ensures var l := Line(LONGER, [' '], ['x'], [], [CR, LF]);
            LineOk(l) && !Accepted(Fold(Fresh(INITIAL), HeadText(Simple([l]))))
  {
    var l := Line(LONGER, [' '], ['x'], [], [CR, LF]);
    LongerIsLike();
    CrLfEnds();
    assert LineOk(l);
    SimpleIsOk([l]);
    assert Does([l][0], SaysTransfer);
    assert !Any([l], SaysChunked) && !Any([l], SaysUpgrade);
    hide Fold, HeadText, HeadOk, LineOk, Does;
    HeadIsAcceptedIff(Fresh(INITIAL), Simple([l]));
  }
}
