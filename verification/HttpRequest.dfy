/** The request that HTTPParser builds from the callbacks, and that it does not
    depend on how the input was cut into buffers. */
module HttpRequest {
  import opened HttpTypes
  import opened HttpStep
  import opened HttpFold
  import opened HttpNames
  import opened HttpLines
  import opened HttpFields
  import opened HttpMethods
  import opened HttpHead
  import opened HttpMessages
  import opened HttpExecute

  /** The parts of the request the callbacks fill in, with the name and value
      under construction; the headers are in the order they were added. The target
      is the raw one: what is cut off at the query is not modelled. */
  datatype Request = Request(
    rawUrl: seq<char>,
    headers: seq<(seq<char>, seq<char>)>,
    body: seq<char>,
    complete: bool,
    inField: bool,        // header_building_state
    field: seq<char>,
    value: seq<char>)

  const EMPTY := Request([], [], [], false, false, [], [])

  function AddField(r: Request, text: seq<char>): Request {
    if r.inField then r.(field := r.field + text)
    else
      var kept := if r.value != [] then r.headers + [(r.field, r.value)] else r.headers;
      r.(headers := kept, value := if r.value != [] then [] else r.value, field := text, inField := true)
  }

  function AddValue(r: Request, text: seq<char>): Request {
    if r.inField then r.(inField := false, value := text) else r.(value := r.value + text)
  }

  /** The name and value are moved from, and so left empty. */
  function EndFields(r: Request): Request {
    if r.field != [] then r.(headers := r.headers + [(r.field, r.value)], field := [], value := []) else r
  }

  function OnEvent(r: Request, e: Event): Request {
    match e
    case Data(Url, text) => r.(rawUrl := r.rawUrl + text)
    case Data(HeaderField, text) => AddField(r, text)
    case Data(HeaderValue, text) => AddValue(r, text)
    case Data(Body, text) => r.(body := r.body + text)
    case Notified(HeadersComplete) => EndFields(r)
    case Notified(MessageComplete) => r.(complete := true)
    case Notified(_) => r
  }

  /** The request after a history of callbacks. */
  function Build(events: seq<Event>): Request {
    if events == [] then EMPTY else OnEvent(Build(events[..|events| - 1]), events[|events| - 1])
  }

  /** The request after a joined log. */
  function BuildLog(log: Log): Request {
    match log
    case Start => EMPTY
    case Then(before, last) => OnEvent(BuildLog(before), last)
  }

  /** Two deliveries of the same kind have the effect of one. */
  lemma OnJoined(r: Request, kind: DataKind, a: seq<char>, b: seq<char>)
    ensures OnEvent(OnEvent(r, Data(kind, a)), Data(kind, b)) == OnEvent(r, Data(kind, a + b))
  {
    match kind
    case Url => assert (r.rawUrl + a) + b == r.rawUrl + (a + b);
    case HeaderField => assert (r.field + a) + b == r.field + (a + b);
    case HeaderValue => assert (r.value + a) + b == r.value + (a + b);
    case Body => assert (r.body + a) + b == r.body + (a + b);
  }

  lemma BuildEmit(log: Log, e: Event)
    ensures BuildLog(Emit(log, e)) == OnEvent(BuildLog(log), e)
  {
    if e.Data? && EndsIn(log, e.kind) {
      OnJoined(BuildLog(log.before), e.kind, log.last.text, e.text);
    }
  }

  /** The request depends only on the joined log: two histories that deliver
      the same data, however cut, build the same request. */
  lemma {:induction false} BuildIgnoresCuts(events: seq<Event>)
    ensures Build(events) == BuildLog(Canon(events))
  {
    if events != [] {
      BuildIgnoresCuts(events[..|events| - 1]);
      BuildEmit(Canon(events[..|events| - 1]), events[|events| - 1]);
    }
  }

  // Which headers end up in the request.

  type Header = (seq<char>, seq<char>)

  /** The names and values of header lines. */
  function Headers(ls: seq<Line>): seq<Header> {
    if ls == [] then [] else Headers(ls[..|ls| - 1]) + [(ls[|ls| - 1].name, Value(ls[|ls| - 1]))]
  }

  function WithValue(hs: seq<Header>): seq<Header> {
    if hs == [] then []
    else WithValue(hs[..|hs| - 1]) + if hs[|hs| - 1].1 != [] then [hs[|hs| - 1]] else []
  }

  predicate NoneEmpty(hs: seq<Header>) {
    forall k :: 0 <= k < |hs| ==> hs[k].1 != []
  }

  lemma {:induction false} NoneEmptyMore(hs: seq<Header>, h: Header)
    ensures NoneEmpty(hs + [h]) <==> NoneEmpty(hs) && h.1 != []
  {
    if NoneEmpty(hs + [h]) {
      assert (hs + [h])[|hs|] == h;
      assert forall k :: 0 <= k < |hs| ==> hs[k] == (hs + [h])[k];
    }
  }

  lemma {:induction false} NoneDropped(hs: seq<Header>)
    ensures |WithValue(hs)| <= |hs| && (|WithValue(hs)| == |hs| <==> NoneEmpty(hs))
    ensures WithValue(hs) == hs <==> NoneEmpty(hs)
  {
    if hs != [] {
      var init, last := hs[..|hs| - 1], hs[|hs| - 1];
      NoneDropped(init);
      NoneEmptyMore(init, last);
      hide NoneEmpty;
      assert hs == init + [last];
    }
  }

  /** A request to which headers can be added. */
  predicate Ready(r: Request) { !r.inField && r.value == [] && r.field == [] }

  /** The request inside a header block, behind the value of its last header. */
  function InBlock(r: Request, hs: seq<Header>): Request
    requires hs != []
  {
    r.(headers := r.headers + WithValue(hs[..|hs| - 1]), field := hs[|hs| - 1].0, value := hs[|hs| - 1].1)
  }

  /** One more header. */
  function With(r: Request, h: Header): Request { AddValue(AddField(r, h.0), h.1) }

  lemma InBlockOne(r: Request, h: Header)
    requires Ready(r)
    ensures With(r, h) == InBlock(r, [h])
  {
    assert [h][..0] == [] && r.headers + [] == r.headers;
  }

  lemma InBlockMore(r: Request, hs: seq<Header>, h: Header)
    requires Ready(r) && hs != []
    ensures With(InBlock(r, hs), h) == InBlock(r, hs + [h])
  {
    var x, w := hs[|hs| - 1], WithValue(hs[..|hs| - 1]);
    assert hs == hs[..|hs| - 1] + [x];
    WithValueMore(hs[..|hs| - 1], x);
    hide WithValue;
    assert (hs + [h])[..|hs|] == hs;
    assert (r.headers + w) + [x] == r.headers + (w + [x]) && r.headers + w == r.headers + (w + []);
  }

  lemma {:induction false} BlockBuilds(log: Log, ls: seq<Line>)
    requires Ready(BuildLog(log)) && ls != []
    ensures |Headers(ls)| == |ls| && BuildLog(LinesLog(log, ls)) == InBlock(BuildLog(log), Headers(ls))
  {
    hide Emit, Value, BuildLog, InBlock, With, WithValue, Ready;
    var init, last := ls[..|ls| - 1], ls[|ls| - 1];
    var before := LinesLog(log, init);
    HeadersMore(init, last);
    assert ls == init + [last];
    LineAdds(before, last.name, Value(last));
    if init == [] {
      assert before == log;
      InBlockOne(BuildLog(log), (last.name, Value(last)));
      assert Headers(ls) == [(last.name, Value(last))];
    } else {
      BlockBuilds(log, init);
      InBlockMore(BuildLog(log), Headers(init), (last.name, Value(last)));
    }
  }

  lemma LineAdds(log: Log, name: seq<char>, value: seq<char>)
    ensures BuildLog(Emit(Emit(log, Data(HeaderField, name)), Data(HeaderValue, value))) == With(BuildLog(log), (name, value))
  {
    BuildEmit(log, Data(HeaderField, name));
    BuildEmit(Emit(log, Data(HeaderField, name)), Data(HeaderValue, value));
    hide Emit, BuildLog;
  }

  lemma {:induction false} HeadersMore(ls: seq<Line>, l: Line)
    ensures Headers(ls + [l]) == Headers(ls) + [(l.name, Value(l))] && |Headers(ls)| == |ls|
  {
    assert (ls + [l])[..|ls|] == ls;
    if ls != [] {
      HeadersMore(ls[..|ls| - 1], ls[|ls| - 1]);
      assert ls == ls[..|ls| - 1] + [ls[|ls| - 1]];
    }
  }

  lemma WithValueMore(hs: seq<Header>, h: Header)
    ensures WithValue(hs + [h]) == WithValue(hs) + if h.1 != [] then [h] else []
  {
    assert (hs + [h])[..|hs|] == hs;
  }

  lemma {:induction false} MethodsBuild(log: Log, n: nat)
    ensures BuildLog(Methods(log, n)) == BuildLog(log)
  {
    if n > 0 {
      MethodsBuild(log, n - 1);
      BuildEmit(Methods(log, n - 1), Notified(OnMethod));
    }
  }

  /** The request line adds its target, and nothing else. */
  lemma LineBuilds(log: Log, h: Head)
    ensures var r := BuildLog(log);
            BuildLog(Emit(Methods(Emit(log, Notified(MessageBegin)), |MethodString(h.mthd)|), Data(Url, h.target)))
            == r.(rawUrl := r.rawUrl + h.target)
  {
    var begun := Emit(log, Notified(MessageBegin));
    BuildEmit(log, Notified(MessageBegin));
    MethodsBuild(begun, |MethodString(h.mthd)|);
    BuildEmit(Methods(begun, |MethodString(h.mthd)|), Data(Url, h.target));
    hide MethodString, Emit, Methods;
  }

  /** The headers that are kept: those with a value, and the last one whatever its
      value. */
  function Kept(hs: seq<Header>): seq<Header> {
    if hs == [] then [] else WithValue(hs[..|hs| - 1]) + [hs[|hs| - 1]]
  }

  /** All headers are kept exactly when none but the last has an empty value. */
  lemma KeptAllIff(hs: seq<Header>)
    ensures Kept(hs) == hs <==> hs == [] || NoneEmpty(hs[..|hs| - 1])
  {
    if hs != [] {
      var init, last := hs[..|hs| - 1], hs[|hs| - 1];
      NoneDropped(init);
      assert hs == init + [last];
      assert Kept(hs)[..|Kept(hs)| - 1] == WithValue(init);
    }
  }

  lemma EndBuilds(log: Log, p: Parser)
    ensures BuildLog(EndLog(log, p)).headers == EndFields(BuildLog(log)).headers
    ensures BuildLog(EndLog(log, p)).rawUrl == BuildLog(log).rawUrl
  {
    BuildEmit(log, Notified(HeadersComplete));
    BuildEmit(Emit(log, Notified(HeadersComplete)), Notified(MessageComplete));
    hide Emit;
  }

  /** The request that is built from an accepted head: its target, and of its headers
      all that have a value, and the last one. */
  lemma LinesThere(h: Head)
    requires HeadOk(h)
    ensures LinesOk(h.lines)
  {
  }

  lemma HeadBuilds(s: Run, h: Head)
    requires InHead(s) && s.p.state == S_START_REQ && HeadOk(h) && Ready(BuildLog(s.log))
    requires Accepted(Fold(s, HeadText(h)))
    ensures var r, before := BuildLog(Fold(s, HeadText(h)).log), BuildLog(s.log);
            && r.rawUrl == before.rawUrl + h.target
            && r.headers == before.headers + Kept(Headers(h.lines))
  {
    hide Fold, HeadText, HeadOk, EndLog, Emit, Methods, BlockDid, BlockOk, MethodString, BuildLog, LineOk, WithValue, Headers,
         InBlock, Kept;
    LinesThere(h);
    HeadIsRead(s, h);
    var q, r := Headed(s.p, h), BuildLog(s.log);
    EndBuilds(HeadLog(s.log, h), q);
    LineBuilds(s.log, h);
    var line := Emit(Methods(Emit(s.log, Notified(MessageBegin)), |MethodString(h.mthd)|), Data(Url, h.target));
    if h.lines == [] {
      NoHeaders();
      assert r.headers + [] == r.headers;
    } else {
      BlockBuilds(line, h.lines);
      NamesThere(h.lines);
      EndsBlock(BuildLog(line), Headers(h.lines));
    }
  }

  lemma EndsBlock(r: Request, hs: seq<Header>)
    requires hs != [] && hs[|hs| - 1].0 != []
    ensures EndFields(InBlock(r, hs)).headers == r.headers + Kept(hs)
    ensures InBlock(r, hs).rawUrl == r.rawUrl
  {
    hide WithValue;
    assert (r.headers + WithValue(hs[..|hs| - 1])) + [hs[|hs| - 1]] == r.headers + Kept(hs);
  }

  lemma NoHeaders()
    ensures Headers([]) == [] && Kept([]) == []
  {
  }

  lemma NamesThere(ls: seq<Line>)
    requires ls != [] && forall k :: 0 <= k < |ls| ==> LineOk(ls[k])
    ensures Headers(ls) != [] && Headers(ls)[|Headers(ls)| - 1].0 != []
  {
  }

  /** All headers of an accepted head are in the request exactly when none but the last
      has an empty value: the others with an empty value are lost. */
  lemma AllHeadersIff(s: Run, h: Head)
    requires InHead(s) && s.p.state == S_START_REQ && HeadOk(h) && Ready(BuildLog(s.log))
    requires Accepted(Fold(s, HeadText(h)))
    ensures var hs := Headers(h.lines);
            BuildLog(Fold(s, HeadText(h)).log).headers == BuildLog(s.log).headers + hs
            <==> hs == [] || NoneEmpty(hs[..|hs| - 1])
  {
    HeadBuilds(s, h);
    KeptAllIff(Headers(h.lines));
    var before, kept, hs := BuildLog(s.log).headers, Kept(Headers(h.lines)), Headers(h.lines);
    hide Fold, HeadText, HeadOk, Kept, NoneEmpty;
    if before + kept == before + hs {
      assert kept == (before + kept)[|before|..] == (before + hs)[|before|..] == hs;
    }
  }

  /** In the request with the headers "A:" and "B: c" the first one is lost. */
  lemma EmptyValueIsLost()
    ensures var h := Simple([Line(['A'], [], [], [], [CR, LF]), Line(['B'], [' '], ['c'], [], [CR, LF])]);
            var t := Fold(Fresh(INITIAL), HeadText(h));
            Accepted(t) && BuildLog(t.log).headers == [(['B'], ['c'])]
  {
    hide Fold, HeadText, HeadOk, LineOk, LinesText, Headers, SepWalk, Does, TargetOk, Emit, BuildLog, WithValue, HeadLog;
    var a, b := Line(['A'], [], [], [], [CR, LF]), Line(['B'], [' '], ['c'], [], [CR, LF]);
    var h, s := Simple([a, b]), Fresh(INITIAL);
    LineA();
    LineB();
    SimpleIsOk([a, b]);
    TwoLines(a, b);
    PlainHeadIsComplete(s, h);
    NothingBuilt();
    HeadBuilds(s, h);
    KeptOfTwo((a.name, []), (b.name, ['c']));
    assert EMPTY.headers + [(b.name, b.value)] == [(b.name, b.value)];
  }

  lemma NothingBuilt()
    ensures BuildLog(Start) == EMPTY && Ready(EMPTY) && EMPTY.headers == []
  {
  }

  lemma KeptOfTwo(a: Header, b: Header)
    ensures Kept([a, b]) == if a.1 == [] then [b] else [a, b]
  {
    assert [a, b][..1] == [a] && [a][..0] == [];
    assert WithValue([a]) == if a.1 == [] then [] else [a];
  }

  lemma LineA()
    ensures var l := Line(['A'], [], [], [], [CR, LF]);
            LineOk(l) && SaysNothing(l) && forall p: Parser :: PrintableLine(p, l)
  {
    CrLfEnds();
    ShortName('A');
    var eol: seq<Byte> := [CR, LF];
    assert [] + eol == eol;
    hide SepWalk;
  }

  lemma LineB()
    ensures var l := Line(['B'], [' '], ['c'], [], [CR, LF]);
            LineOk(l) && SaysNothing(l) && forall p: Parser :: PrintableLine(p, l)
  {
    CrLfEnds();
    ShortName('B');
    hide SepWalk;
  }

  lemma TwoLines(a: Line, b: Line)
    requires a.more == [] == b.more
    ensures |LinesText([a, b])| == |a.name + a.gap + a.value + a.eol| + |b.name + b.gap + b.value + b.eol| + 2
    ensures Headers([a, b]) == [(a.name, a.value), (b.name, b.value)]
  {
    assert [a, b][..1] == [a] && [a][..0] == [];
    assert Value(a) == a.value && Value(b) == b.value;
    assert LinesText([a]) == LineText(a) && LinesText([a, b]) == LineText(a) + LineText(b);
    assert Headers([a]) == [(a.name, a.value)];
  }

  lemma ShortName(ch: Byte)
    requires ch == 'A' || ch == 'B'
    ensures Tokens([ch]) && !LikeTransferEncoding([ch]) && !Named([ch], CONTENT_LENGTH) && !Named([ch], UPGRADE)
  {
    assert |Low([ch])| == 1 && |TRANSFER_ENCODING| == 17 && |CONTENT_LENGTH| == 14 && |UPGRADE| == 7;
  }

  /** What is fed behind a complete message is left alone. */
  function Feeds(s: Run, pieces: seq<seq<Byte>>): Run {
    if pieces == [] then s
    else
      var t := Feeds(s, pieces[..|pieces| - 1]);
      if Accepted(t) && !BuildLog(t.log).complete then Fold(t.(stopped := false), pieces[|pieces| - 1]) else t
  }

  /** No message is complete in front of the last piece. */
  predicate OneMessage(s: Run, pieces: seq<seq<Byte>>) {
    forall k :: 0 <= k < |pieces| ==> !BuildLog(InPieces(s, pieces[..k]).log).complete
  }

  lemma {:induction false} FeedsAll(s: Run, pieces: seq<seq<Byte>>)
    requires OneMessage(s, pieces)
    ensures Feeds(s, pieces) == InPieces(s, pieces)
  {
    hide BuildLog, Fold;
    if pieces != [] {
      var init := pieces[..|pieces| - 1];
      assert forall k :: 0 <= k <= |init| ==> pieces[..k] == init[..k];
      assert init[..|init|] == init;
      assert !BuildLog(InPieces(s, pieces[..|init|]).log).complete;
      FeedsAll(s, init);
    }
  }

  /** HTTPParser::feed: nothing is parsed once the message is complete. */
  method FeedOne(parser: HttpParser, piece: seq<Byte>) returns (ok: bool)
    requires parser.f.errno == CHPE_OK && parser.Valid() && 0 < |piece| < UINT32 - MAX_HEADER_SIZE
    modifies parser
    ensures parser.Valid()
    ensures var s := Run(old(parser.f), Canon(old(parser.events)), false, false);
            var t := if BuildLog(s.log).complete then s else Fold(s, piece);
            && (ok <==> Accepted(t))
            && (ok ==> parser.f == t.p && Canon(parser.events) == t.log)
  {
    hide Fold, BuildLog, Build, Canon;
    BuildIgnoresCuts(parser.events);
    if Build(parser.events).complete {
      return true;
    }
    var n := parser.Execute(piece);
    ok := parser.f.errno == CHPE_OK && n == |piece|;
  }

  lemma {:induction false} FeedsRefused(s: Run, pieces: seq<seq<Byte>>, k: nat)
    requires k <= |pieces| && !Accepted(Feeds(s, pieces[..k]))
    ensures !Accepted(Feeds(s, pieces))
    decreases |pieces| - k
  {
    hide Fold, Accepted, BuildLog;
    if k == |pieces| {
      assert pieces[..k] == pieces;
    } else {
      assert pieces[..k + 1][..k] == pieces[..k];
      FeedsRefused(s, pieces, k + 1);
    }
  }

  /** End to end: the pieces of an input are accepted, and give a request, exactly as
      when each is read byte by byte up to the end of the message. A request that comes
      in any pieces is the one built from the whole input. */
  method Receive(parser: HttpParser, pieces: seq<seq<Byte>>) returns (ok: bool, r: Request)
    requires parser.f.errno == CHPE_OK && parser.events == [] && parser.Valid()
    requires forall k :: 0 <= k < |pieces| ==> 0 < |pieces[k]| < UINT32 - MAX_HEADER_SIZE
    modifies parser
    ensures var s := Feeds(Fresh(old(parser.f)), pieces);
            (ok <==> Accepted(s)) && (ok ==> r == BuildLog(s.log))
    ensures var s := Fold(Fresh(old(parser.f)), Concat(pieces));
            Accepted(s) && OneMessage(Fresh(old(parser.f)), pieces) ==> ok && r == BuildLog(s.log)
  {
    hide Fold, BuildLog, Build, Canon, OneMessage, NoneStops, InPieces, Concat;
    ghost var s := Fresh(parser.f);
    NothingLogged(parser.events);
    PiecesIff(s, pieces);
    if OneMessage(s, pieces) {
      FeedsAll(s, pieces);
    }
    assert pieces[..0] == [];
    ok := true;
    for k := 0 to |pieces|
      invariant ok && parser.Valid() && parser.f.errno == CHPE_OK
      invariant var t := Feeds(s, pieces[..k]); t == Run(parser.f, Canon(parser.events), t.stopped, false)
    {
      assert pieces[..k + 1][..k] == pieces[..k];
      ok := FeedOne(parser, pieces[k]);
      if !ok {
        FeedsRefused(s, pieces, k + 1);
        return false, EMPTY;
      }
    }
    assert pieces[..|pieces|] == pieces;
    r := Build(parser.events);
    BuildIgnoresCuts(parser.events);
  }

  lemma NothingLogged(events: seq<Event>)
    requires events == []
    ensures Canon(events) == Start
  {
  }
}
