/** The converse of reading a head: every input that is accepted up to the end of a
    head has the form of one. */
module HttpForms {
  import Sequences
  import opened HttpTypes
  import opened HttpStep
  import opened HttpInvariant
  import opened HttpFold
  import opened HttpNames
  import opened HttpLines
  import opened HttpFields
  import opened HttpMethods
  import opened HttpHead
  import opened HttpMessages

  // Header lines.

  /** The states between the first byte of a header block and its last. */
  predicate InBlock(st: State) {
    (S_HEADER_FIELD_START <= st <= S_HEADER_ALMOST_DONE && st != S_HEADER_VALUE_START) || st == S_HEADERS_ALMOST_DONE
  }

  /** The states in front of the end of a head. */
  predicate InFront(st: State) { st < S_HEADER_FIELD_START || InBlock(st) }

  /** Where a byte that is taken leads in a header block. */
  predicate Leads(st: State, ch: Byte, next: State) {
    if Sep(st, ch).Some? then next == Sep(st, ch).value
    else if st == S_HEADER_FIELD then Token(ch) != '\0' && next == S_HEADER_FIELD
    else if st == S_HEADER_VALUE_DISCARD_WS || st == S_HEADER_VALUE || (st == S_HEADER_VALUE_LWS && IsWs(ch)) then
      ch != CR && ch != LF && next == S_HEADER_VALUE
    else if AtLine(st) then
      if ch == CR then next == S_HEADERS_ALMOST_DONE
      else if ch == LF then !InFront(next)
      else Token(ch) != '\0' && next == S_HEADER_FIELD
    else st == S_HEADERS_ALMOST_DONE && ch == LF && !InFront(next)
  }

  lemma EndNext(c: Parser, ch: Byte)
    requires c.errno == CHPE_OK && !c.flags.trailing && c.state == S_HEADERS_ALMOST_DONE
    ensures var q := OnHeadersAlmostDone(c, ch); q.errno == CHPE_OK ==> ch == LF && !InFront(q.state)
  {
  }

  lemma LineNext(c: Parser, ch: Byte)
    requires c.errno == CHPE_OK && !c.flags.trailing && AtLine(c.state) && Sep(c.state, ch).None?
    requires !(c.state == S_HEADER_VALUE_LWS && IsWs(ch))
    ensures var q := Next(c, ch);
            q.errno == CHPE_OK ==>
              Leads(c.state, ch, q.state) && (InBlock(q.state) ==> q.nread == c.nread && !q.flags.trailing)
  {
    hide HeaderFlags, FirstHs, Token, OnHeadersAlmostDone, OnFraming, OnRequestLine, FieldNext, ValueByte, OnValueStart;
    var e := Ended(c);
    EndNext(Go(e, S_HEADERS_ALMOST_DONE), LF) by { EndedTrailing(c); }
    EndedTrailing(c);
    assert Next(c, ch) == OnHeader(c, ch);
  }

  lemma FlagsTrailing(f: Flags, hs: HeaderState)
    ensures HeaderFlags(f, hs).trailing == f.trailing
  {
  }

  lemma EndedTrailing(c: Parser)
    ensures Ended(c).flags.trailing == c.flags.trailing && Ended(c).errno == c.errno
  {
    hide HeaderFlags;
    FlagsTrailing(c.flags, c.hs);
  }

  lemma StartTrailing(p: Parser, ch: Byte)
    ensures var q := OnValueStart(p, ch);
            q.errno == CHPE_OK ==> q.state == S_HEADER_VALUE && q.nread == p.nread && q.flags.trailing == p.flags.trailing
  {
    hide ValueStartHs, Digit;
  }

  lemma ValueTrailing(p: Parser, ch: Byte)
    ensures var q := ValueByte(p, ch); q.state == p.state && q.nread == p.nread && q.flags == p.flags
  {
    hide ValueNext, LengthDigit;
  }

  lemma BlockNext(c: Parser, ch: Byte)
    requires c.errno == CHPE_OK && !c.flags.trailing && InBlock(c.state)
    ensures var q := Next(c, ch);
            q.errno == CHPE_OK ==>
              Leads(c.state, ch, q.state) && (InBlock(q.state) ==> q.nread == c.nread && !q.flags.trailing)
  {
    hide Token, FieldNext, ValueByte, OnValueStart, FoldLine, OnHeadersAlmostDone, OnHeaderFieldStart;
    if Sep(c.state, ch).Some? {
      SepNext(c, ch);
    } else if c.state == S_HEADER_VALUE_LWS && IsWs(ch) {
      FoldTrailing(c);
      StartTrailing(FoldLine(c), ch);
      assert Next(c, ch) == OnHeader(c, ch);
    } else if AtLine(c.state) {
      LineNext(c, ch);
    } else if c.state == S_HEADERS_ALMOST_DONE {
      EndNext(c, ch);
      assert Next(c, ch) == OnFraming(c, ch);
    } else {
      StartTrailing(c, ch);
      ValueTrailing(c, ch);
      assert Next(c, ch) == OnHeader(c, ch);
    }
  }

  lemma FoldTrailing(p: Parser)
    ensures FoldLine(p).flags == p.flags && FoldLine(p).nread == p.nread && FoldLine(p).errno == p.errno
  {
  }

  lemma BlockByte(s: Run, ch: Byte)
    requires InHead(s) && InBlock(s.p.state) && !s.p.flags.trailing && Accepted(Step(s, ch))
    ensures var u := Step(s, ch);
            Leads(s.p.state, ch, u.p.state) && (InBlock(u.p.state) ==> InHead(u) && !u.p.flags.trailing)
  {
    hide Next, Events, Stops, Step, Leads;
    StepIs(s, ch);
    var c := s.p.(nread := s.p.nread + 1);
    BlockNext(c, ch);
    if InBlock(Step(s, ch).p.state) {
      NoStop(c, ch);
    }
  }

  // The form of a header block that is not over.

  datatype Stage =
    | Starting
    | Naming(name: seq<Byte>)
    | Spacing(name: seq<Byte>, gap: seq<Byte>)
    | Valuing(name: seq<Byte>, gap: seq<Byte>, value: seq<Byte>, more: seq<Continued>, eol: seq<Byte>)
    | Closing
    | Closed(eol: seq<Byte>)

  function StageText(g: Stage): seq<Byte> {
    match g
    case Starting => []
    case Naming(name) => name
    case Spacing(name, gap) => name + ([':'] + gap)
    case Valuing(name, gap, value, more, eol) => name + ([':'] + (gap + (value + (MoreText(more) + eol))))
    case Closing => [CR]
    case Closed(eol) => eol
  }

  predicate Gap(gap: seq<Byte>, st: State) {
    && SepWalk(S_HEADER_VALUE_DISCARD_WS, gap) == Some(st)
    && (st == S_HEADER_VALUE_DISCARD_WS || st == S_HEADER_VALUE_DISCARD_WS_ALMOST_DONE || st == S_HEADER_VALUE_DISCARD_LWS)
  }

  predicate Eol(eol: seq<Byte>, st: State) {
    && SepWalk(S_HEADER_VALUE, eol) == Some(st)
    && (st == S_HEADER_VALUE || st == S_HEADER_ALMOST_DONE || st == S_HEADER_VALUE_LWS)
    && (st == S_HEADER_VALUE <==> eol == [])
  }

  predicate Text(value: seq<Byte>, more: seq<Continued>) {
    && value != [] && !IsWs(value[0]) && NoLineEnd(value)
    && forall k :: 0 <= k < |more| ==> ContinuedOk(more[k])
  }

  predicate StageOk(g: Stage, st: State) {
    match g
    case Starting => st == S_HEADER_FIELD_START
    case Naming(name) => name != [] && Tokens(name) && st == S_HEADER_FIELD
    case Spacing(name, gap) => name != [] && Tokens(name) && Gap(gap, st)
    case Valuing(name, gap, value, more, eol) =>
      name != [] && Tokens(name) && Gap(gap, S_HEADER_VALUE_DISCARD_WS) && Text(value, more) && Eol(eol, st)
    case Closing => st == S_HEADERS_ALMOST_DONE
    case Closed(eol) => IsEol(eol) && !InFront(st)
  }

  lemma GapMore(gap: seq<Byte>, st: State, ch: Byte)
    requires Gap(gap, st) && Sep(st, ch).Some?
    ensures Gap(gap + [ch], Sep(st, ch).value)
  {
    assert (gap + [ch])[..|gap|] == gap;
  }

  lemma EolMore(eol: seq<Byte>, st: State, ch: Byte)
    requires Eol(eol, st) && Sep(st, ch).Some?
    ensures Eol(eol + [ch], Sep(st, ch).value)
  {
    assert (eol + [ch])[..|eol|] == eol;
  }

  /** One more byte of a value. */
  lemma TextMore(value: seq<Byte>, more: seq<Continued>, ch: Byte) returns (v: seq<Byte>, m: seq<Continued>)
    requires Text(value, more) && ch != CR && ch != LF
    ensures Text(v, m) && v + MoreText(m) == value + MoreText(more) + [ch]
  {
    if more == [] {
      v, m := value + [ch], [];
      assert v + [] == value + [] + [ch];
    } else {
      var init, last := more[..|more| - 1], more[|more| - 1];
      var longer := Continued(last.eol, last.text + [ch]);
      v, m := value, init + [longer];
      assert ContinuedOk(last);
      assert m[..|m| - 1] == init;
      assert MoreText(m) == MoreText(more) + [ch];
      Sequences.Assoc(value, MoreText(more), [ch]);
    }
  }

  /** A line that continues a value begins. */
  lemma TextFolds(value: seq<Byte>, more: seq<Continued>, eol: seq<Byte>, ch: Byte) returns (m: seq<Continued>)
    requires Text(value, more) && Eol(eol, S_HEADER_VALUE_LWS) && IsWs(ch)
    ensures Text(value, m) && value + MoreText(m) == value + (MoreText(more) + eol) + [ch]
  {
    var next := Continued(eol, [ch]);
    m := more + [next];
    assert m[..|m| - 1] == more;
    assert ContinuedOk(next);
    assert MoreText(m) == MoreText(more) + (eol + [ch]);
    assert value + (MoreText(more) + (eol + [ch])) == value + (MoreText(more) + eol) + [ch];
  }

  // The lines that are over.

  function Whole(ls: seq<Line>, g: Stage): seq<Byte> { LinesText(ls) + StageText(g) }

  lemma LinesMore(ls: seq<Line>, l: Line)
    requires LinesOk(ls) && LineOk(l)
    ensures LinesOk(ls + [l]) && LinesText(ls + [l]) == LinesText(ls) + LineText(l)
  {
    assert (ls + [l])[..|ls|] == ls;
  }

  /** At the beginning of a line the one before is over. */
  lemma LineOver(ls: seq<Line>, g: Stage, st: State) returns (all: seq<Line>)
    requires LinesOk(ls) && StageOk(g, st) && AtLine(st)
    ensures LinesOk(all) && LinesText(all) == Whole(ls, g)
  {
    match g
    case Starting =>
      all := ls;
      assert LinesText(ls) + [] == LinesText(ls);
    case Spacing(name, gap) =>
      var l := Line(name, gap, [], [], []);
      assert gap + [] == gap;
      assert LineOk(l) && LineText(l) == StageText(g);
      LinesMore(ls, l);
      all := ls + [l];
    case Valuing(name, gap, value, more, eol) =>
      var l := Line(name, gap, value, more, eol);
      assert LineOk(l) && LineText(l) == StageText(g);
      LinesMore(ls, l);
      all := ls + [l];
  }

  /** One byte further. */
  lemma StageStep(ls: seq<Line>, g: Stage, st: State, ch: Byte, next: State) returns (ls': seq<Line>, g': Stage)
    requires LinesOk(ls) && StageOk(g, st) && InBlock(st) && Leads(st, ch, next)
    ensures LinesOk(ls') && StageOk(g', next) && Whole(ls', g') == Whole(ls, g) + [ch]
  {
    hide Gap, Eol, Text, LinesOk, LinesText, MoreText, Tokens;
    if AtLine(st) && !(Sep(st, ch).Some? || (st == S_HEADER_VALUE_LWS && IsWs(ch))) {
      ls' := LineOver(ls, g, st);
      if ch == CR {
        g' := Closing;
      } else if ch == LF {
        g' := Closed([LF]);
      } else {
        g' := Naming([ch]);
        OneToken(ch);
      }
      assert Whole(ls', g') == Whole(ls, g) + [ch];
    } else {
      ls' := ls;
      g' := StageGoes(g, st, ch, next);
      Sequences.Assoc(LinesText(ls), StageText(g), [ch]);
    }
  }

  lemma OneToken(ch: Byte)
    requires Token(ch) != '\0'
    ensures Tokens([ch])
  {
  }

  lemma TokensMore(name: seq<Byte>, ch: Byte)
    requires Tokens(name) && Token(ch) != '\0'
    ensures Tokens(name + [ch])
  {
  }

  lemma Starts(ch: Byte)
    ensures Gap([], S_HEADER_VALUE_DISCARD_WS) && Eol([], S_HEADER_VALUE)
    ensures !IsWs(ch) && ch != CR && ch != LF ==> Text([ch], [])
    ensures MoreText([]) == []
  {
  }

  lemma Places(gap: seq<Byte>, eol: seq<Byte>, st: State)
    ensures Gap(gap, st) ==> st == S_HEADER_VALUE_DISCARD_WS || st == S_HEADER_VALUE_DISCARD_WS_ALMOST_DONE
                             || st == S_HEADER_VALUE_DISCARD_LWS
    ensures Eol(eol, st) ==> st == S_HEADER_VALUE || st == S_HEADER_ALMOST_DONE || st == S_HEADER_VALUE_LWS
    ensures Eol(eol, st) ==> (st == S_HEADER_VALUE <==> eol == [])
  {
  }

  /** Inside a line, or behind the CR of the empty line. */
  lemma StageGoes(g: Stage, st: State, ch: Byte, next: State) returns (g': Stage)
    requires StageOk(g, st) && InBlock(st) && Leads(st, ch, next)
    requires !AtLine(st) || Sep(st, ch).Some? || (st == S_HEADER_VALUE_LWS && IsWs(ch))
    ensures StageOk(g', next) && StageText(g') == StageText(g) + [ch]
  {
    hide Gap, Eol, Text, MoreText, Tokens;
    match g
    case Naming(name) =>
      if ch == ':' {
        NoToken();
        Starts(ch);
        g' := Spacing(name, []);
      } else {
        TokensMore(name, ch);
        g' := Naming(name + [ch]);
      }
    case Spacing(name, gap) =>
      Places(gap, [], st);
      if Sep(st, ch).Some? {
        GapMore(gap, st, ch);
        g' := Spacing(name, gap + [ch]);
      } else {
        Starts(ch);
        g' := Valuing(name, gap, [ch], [], []);
      }
      assert StageText(g') == name + ([':'] + (gap + [ch]));
    case Valuing(name, gap, value, more, eol) =>
      Places(gap, eol, st);
      var v, m, e := value, more, eol + [ch];
      if Sep(st, ch).Some? {
        EolMore(eol, st, ch);
        Sequences.Assoc(MoreText(more), eol, [ch]);
        Sequences.Assoc(value, MoreText(more) + eol, [ch]);
      } else {
        Starts(ch);
        e := [];
        if st == S_HEADER_VALUE {
          v, m := TextMore(value, more, ch);
          assert MoreText(more) + [] == MoreText(more);
        } else {
          m := TextFolds(value, more, eol, ch);
        }
        assert MoreText(m) + [] == MoreText(m);
      }
      g' := Valuing(name, gap, v, m, e);
      ValuingMore(name, gap, value + (MoreText(more) + eol), ch);
    case Closing => g' := Closed([CR, LF]);
    case Closed(_) => g' := g;
  }

  lemma ValuingMore(name: seq<Byte>, gap: seq<Byte>, text: seq<Byte>, ch: Byte)
    ensures name + ([':'] + (gap + (text + [ch]))) == name + ([':'] + (gap + text)) + [ch]
  {
  }

  lemma StageInBlock(g: Stage, st: State)
    requires StageOk(g, st)
    ensures InBlock(st) <==> !g.Closed?
    ensures InFront(st) <==> !g.Closed?
  {
    hide Gap, Eol, Text, Tokens;
    if g.Spacing? {
      Places(g.gap, [], st);
    } else if g.Valuing? {
      Places(g.gap, g.eol, st);
    }
  }

  /** The form of all that was read of a header block. */
  lemma {:induction false} StageOf(s: Run, xs: seq<Byte>) returns (ls: seq<Line>, g: Stage)
    requires InHead(s) && s.p.state == S_HEADER_FIELD_START && !s.p.flags.trailing && Accepted(Fold(s, xs))
    requires forall i :: 0 <= i < |xs| ==> InFront(Fold(s, xs[..i]).p.state)
    ensures LinesOk(ls) && StageOk(g, Fold(s, xs).p.state) && Whole(ls, g) == xs
    ensures InBlock(Fold(s, xs).p.state) ==> InHead(Fold(s, xs)) && !Fold(s, xs).p.flags.trailing
  {
    hide Fold, Step, InBlock, InFront, Leads, Gap, Eol;
    if xs == [] {
      FoldNone(s);
      ls, g := [], Starting;
    } else {
      var init, last := xs[..|xs| - 1], xs[|xs| - 1];
      assert init + [last] == xs;
      Last(s, init, last);
      assert forall i :: 0 <= i < |init| ==> init[..i] == xs[..i];
      assert InFront(Fold(s, xs[..|init|]).p.state);
      ls, g := StageOf(s, init);
      var t := Fold(s, init);
      StageInBlock(g, t.p.state);
      BlockByte(t, last);
      ls, g := StageStep(ls, g, t.p.state, last, Step(t, last).p.state);
    }
  }

  /** A header block that is accepted up to its end is header lines and an empty line. */
  lemma OnlyBlocks(s: Run, xs: seq<Byte>) returns (ls: seq<Line>, eol: seq<Byte>)
    requires InHead(s) && s.p.state == S_HEADER_FIELD_START && !s.p.flags.trailing && Accepted(Fold(s, xs))
    requires forall i :: 0 <= i < |xs| ==> InFront(Fold(s, xs[..i]).p.state)
    requires !InFront(Fold(s, xs).p.state)
    ensures LinesOk(ls) && IsEol(eol) && LinesText(ls) + eol == xs
  {
    hide Fold, LinesOk, LinesText, InFront;
    var g;
    ls, g := StageOf(s, xs);
    StageInBlock(g, Fold(s, xs).p.state);
    eol := StageText(g);
  }

  // Request lines.

  /** A version of which the end is still to come leads to this state. */
  function Runs(m: Method, st: State, v: seq<Byte>): Option<State>
    decreases |v|
  {
    if v == [] then Some(st)
    else if InVersion(st) && VersionNext(st, v[0], m).To? then Runs(m, VersionNext(st, v[0], m).state, v[1..])
    else None
  }

  lemma {:induction false} RunsMore(m: Method, st: State, v: seq<Byte>, ch: Byte)
    requires Runs(m, st, v).Some? && InVersion(Runs(m, st, v).value)
    requires VersionNext(Runs(m, st, v).value, ch, m).To?
    ensures Runs(m, st, v + [ch]) == Some(VersionNext(Runs(m, st, v).value, ch, m).state)
    decreases |v|
  {
    hide VersionNext;
    if v == [] {
      assert v + [ch] == [ch];
    } else {
      assert (v + [ch])[0] == v[0] && (v + [ch])[1..] == v[1..] + [ch];
      RunsMore(m, VersionNext(st, v[0], m).state, v[1..], ch);
    }
  }

  lemma {:induction false} RunsOver(m: Method, st: State, v: seq<Byte>)
    requires Runs(m, st, v) == Some(S_HEADER_FIELD_START)
    ensures VersionRuns(m, st, v)
    decreases |v|
  {
    hide VersionNext;
    if v != [] {
      RunsOver(m, VersionNext(st, v[0], m).state, v[1..]);
    }
  }

  datatype Opening =
    | Leading(lead: seq<Byte>)
    | Lettering(lead: seq<Byte>, letters: seq<Byte>)
    | Gapping(lead: seq<Byte>, mthd: Method, gap: seq<Byte>)
    | Targeting(lead: seq<Byte>, mthd: Method, gap: seq<Byte>, target: seq<Byte>)
    | Versioning(lead: seq<Byte>, mthd: Method, gap: seq<Byte>, target: seq<Byte>, version: seq<Byte>)
    | Feeding(lead: seq<Byte>, mthd: Method, gap: seq<Byte>, target: seq<Byte>)
    | Arrived(lead: seq<Byte>, mthd: Method, gap: seq<Byte>, target: seq<Byte>, tail: Tail)

  /** A method and what follows it, behind anything in front. */
  function Behind(lead: seq<Byte>, m: Method, rest: seq<Byte>): seq<Byte> { lead + ((MethodText(m) + [' ']) + rest) }

  function OpeningText(o: Opening): seq<Byte> {
    match o
    case Leading(lead) => lead
    case Lettering(lead, letters) => lead + letters
    case Gapping(lead, m, gap) => Behind(lead, m, gap)
    case Targeting(lead, m, gap, target) => Behind(lead, m, gap + target)
    case Versioning(lead, m, gap, target, v) => Behind(lead, m, gap + (target + ([' '] + v)))
    case Feeding(lead, m, gap, target) => Behind(lead, m, gap + (target + [CR]))
    case Arrived(lead, m, gap, target, tail) => Behind(lead, m, gap + (target + TailText(tail)))
  }

  predicate Between(gap: seq<Byte>, target: seq<Byte>) {
    AllIdle(S_REQ_SPACES_BEFORE_URL, gap) && target != [] && AllInner(target)
  }

  predicate OpeningOk(o: Opening, p: Parser) {
    && AllIdle(S_START_REQ, o.lead) && (o.Leading? || !p.flags.trailing)
    && match o
       case Leading(_) => p.state == S_START_REQ
       case Lettering(_, letters) => p.state == S_REQ_METHOD && Letters(letters)
       case Gapping(_, m, gap) => p.state == S_REQ_SPACES_BEFORE_URL && p.mthd == m && AllIdle(S_REQ_SPACES_BEFORE_URL, gap)
       case Targeting(_, m, gap, target) => UrlState(p.state) && p.mthd == m && Between(gap, target)
       case Versioning(_, m, gap, target, v) =>
         InVersion(p.state) && p.mthd == m && Between(gap, target) && Runs(m, S_REQ_HTTP_START, v) == Some(p.state)
       case Feeding(_, m, gap, target) =>
         p.state == S_REQ_LINE_ALMOST_DONE && p.mthd == m == M_GET && Between(gap, target)
       case Arrived(_, m, gap, target, tail) =>
         p.state == S_HEADER_FIELD_START && p.mthd == m && Between(gap, target) && TailOk(m, tail)
  }

  predicate Letters(text: seq<Byte>) { text != [] && text[0] != CR && text[0] != LF && ' ' !in text }

  /** The form goes on by one byte. */
  ghost predicate On(o: Opening, ch: Byte, o': Opening, u: Run) {
    OpeningText(o') == OpeningText(o) + [ch] && InHead(u) && OpeningOk(o', u.p)
  }

  lemma IdleMore(st: State, xs: seq<Byte>, ch: Byte)
    requires AllIdle(st, xs) && Idle(st, ch)
    ensures AllIdle(st, xs + [ch])
  {
    hide Idle;
  }

  lemma LeadStep(t: Run, o: Opening, ch: Byte) returns (o': Opening)
    requires InHead(t) && o.Leading? && OpeningOk(o, t.p) && Accepted(Step(t, ch))
    ensures On(o, ch, o', Step(t, ch))
  {
    hide Step, FirstMethod;
    if ch == CR || ch == LF {
      IdleByte(t, ch);
      IdleMore(S_START_REQ, o.lead, ch);
      o' := Leading(o.lead + [ch]);
    } else {
      MethodFirst(t, ch);
      NoSpaceFirst();
      o' := Lettering(o.lead, [ch]);
    }
  }

  lemma NoSpaceFirst()
    ensures FirstMethod(' ').None?
  {
  }

  lemma LettersMore(text: seq<Byte>, ch: Byte)
    requires Letters(text) && ch != ' '
    ensures Letters(text + [ch])
  {
  }

  lemma LetterStep(s: Run, t: Run, o: Opening, ch: Byte) returns (o': Opening)
    requires InHead(s) && s.p.state == S_START_REQ && t == Fold(s, OpeningText(o))
    requires InHead(t) && o.Lettering? && OpeningOk(o, t.p) && Accepted(Step(t, ch))
    ensures On(o, ch, o', Step(t, ch))
  {
    hide Step, Fold, AllIdle, MethodNext, Guess, MethodString, Emit, Methods;
    Prefix(s, o.lead, o.letters);
    IdleIsRead(s, o.lead);
    var z := Fold(s, o.lead);
    MethodLetters(z, o.letters);
    if ch == ' ' {
      Last(z, o.letters, ' ');
      MethodIsRead(z, o.letters);
      o' := Gapping(o.lead, Step(t, ch).p.mthd, []);
      assert (MethodText(o'.mthd) + [' ']) + [] == o.letters + [ch];
      NoneIdle();
    } else {
      MethodMore(t, ch);
      OverIsSpace(t.p.mthd, t.p.index, ch);
      LettersMore(o.letters, ch);
      o' := Lettering(o.lead, o.letters + [ch]);
    }
    Sequences.Assoc(o.lead, o.letters, [ch]);
  }

  lemma NoneIdle()
    ensures AllIdle(S_REQ_SPACES_BEFORE_URL, [])
  {
  }

  lemma BehindMore(lead: seq<Byte>, m: Method, rest: seq<Byte>, ch: Byte)
    ensures Behind(lead, m, rest + [ch]) == Behind(lead, m, rest) + [ch]
  {
    hide MethodString;
  }

  lemma NoUrl(c: Parser, ch: Byte)
    requires c.errno == CHPE_OK && c.state == S_REQ_SPACES_BEFORE_URL && (ch == CR || ch == LF)
    ensures Next(c, ch).errno != CHPE_OK
  {
    assert Next(c, ch) == OnRequestLine(c, ch);
  }

  lemma NoUrlByte(t: Run, ch: Byte)
    requires InHead(t) && t.p.state == S_REQ_SPACES_BEFORE_URL && (ch == CR || ch == LF)
    ensures !Accepted(Step(t, ch))
  {
    hide Step, Next, Events, Stops;
    StepIs(t, ch);
    if t.p.nread < MAX_HEADER_SIZE {
      NoUrl(t.p.(nread := t.p.nread + 1), ch);
    }
  }

  lemma GapStep(t: Run, o: Opening, ch: Byte) returns (o': Opening)
    requires InHead(t) && o.Gapping? && OpeningOk(o, t.p) && Accepted(Step(t, ch))
    ensures On(o, ch, o', Step(t, ch))
  {
    hide Step, Behind, ParseUrlChar;
    BehindMore(o.lead, o.mthd, o.gap, ch);
    if ch == ' ' {
      IdleByte(t, ch);
      IdleMore(S_REQ_SPACES_BEFORE_URL, o.gap, ch);
      o' := Gapping(o.lead, o.mthd, o.gap + [ch]);
    } else if ch == CR || ch == LF {
      NoUrlByte(t, ch);
      o' := o;
    } else {
      TargetByte(t, ch);
      o' := Targeting(o.lead, o.mthd, o.gap, [ch]);
    }
  }

  lemma NoVersionless(c: Parser, ch: Byte)
    requires c.errno == CHPE_OK && UrlState(c.state) && (ch == CR || ch == LF) && c.mthd != M_GET
    ensures Next(c, ch).errno != CHPE_OK
  {
    assert Next(c, ch) == OnRequestLine(c, ch);
  }

  lemma NoVersionlessByte(t: Run, ch: Byte)
    requires InHead(t) && UrlState(t.p.state) && (ch == CR || ch == LF) && t.p.mthd != M_GET
    ensures !Accepted(Step(t, ch))
  {
    hide Step, Next, Events, Stops;
    StepIs(t, ch);
    if t.p.nread < MAX_HEADER_SIZE {
      NoVersionless(t.p.(nread := t.p.nread + 1), ch);
    }
  }

  lemma TargetStep(t: Run, o: Opening, ch: Byte) returns (o': Opening)
    requires InHead(t) && o.Targeting? && OpeningOk(o, t.p) && Accepted(Step(t, ch))
    ensures On(o, ch, o', Step(t, ch))
  {
    hide Step, Behind, ParseUrlChar, AllIdle, MethodText;
    BehindMore(o.lead, o.mthd, o.gap + o.target, ch);
    Sequences.Assoc(o.gap, o.target, [ch]);
    if ch == ' ' {
      TargetEnds(t);
      o' := Versioning(o.lead, o.mthd, o.gap, o.target, []);
      assert [' '] + [] == [ch];
    } else if ch == CR || ch == LF {
      if t.p.mthd != M_GET {
        NoVersionlessByte(t, ch);
      }
      UrlOverByte(t, ch);
      o' := if ch == CR then Feeding(o.lead, o.mthd, o.gap, o.target)
            else Arrived(o.lead, o.mthd, o.gap, o.target, Versionless([LF]));
    } else {
      TargetByte(t, ch);
      o' := Targeting(o.lead, o.mthd, o.gap, o.target + [ch]);
    }
  }

  lemma VersionKeeps(p: Parser, ch: Byte)
    requires InVersion(p.state)
    ensures OnVersion(p, ch).mthd == p.mthd && OnVersion(p, ch).flags == p.flags
  {
    hide VersionNext;
  }

  lemma VersionStepOn(t: Run, o: Opening, ch: Byte) returns (o': Opening)
    requires InHead(t) && o.Versioning? && OpeningOk(o, t.p) && Accepted(Step(t, ch))
    ensures On(o, ch, o', Step(t, ch))
  {
    hide Step, Behind, VersionNext, OnVersion, AllIdle, AllInner, MethodText, VersionOk, VersionText, VersionRuns;
    var v := o.version + [ch];
    BehindMore(o.lead, o.mthd, o.gap + (o.target + ([' '] + o.version)), ch);
    assert o.gap + (o.target + ([' '] + o.version)) + [ch] == o.gap + (o.target + ([' '] + v));
    VersionByte(t, ch);
    VersionKeeps(t.p, ch);
    VersionTo(t.p.state, ch, t.p.mthd);
    RunsMore(o.mthd, S_REQ_HTTP_START, o.version, ch);
    if Step(t, ch).p.state == S_HEADER_FIELD_START {
      RunsOver(o.mthd, S_REQ_HTTP_START, v);
      var version := OnlyWritten(o.mthd, v);
      o' := Arrived(o.lead, o.mthd, o.gap, o.target, Versioned(version));
    } else {
      o' := Versioning(o.lead, o.mthd, o.gap, o.target, v);
    }
  }

  lemma OnlyFeed(m: Method, ch: Byte)
    ensures VersionNext(S_REQ_LINE_ALMOST_DONE, ch, m).To? ==> ch == LF
    ensures VersionNext(S_REQ_LINE_ALMOST_DONE, LF, m) == To(S_HEADER_FIELD_START)
  {
  }

  lemma FeedStep(t: Run, o: Opening, ch: Byte) returns (o': Opening)
    requires InHead(t) && o.Feeding? && OpeningOk(o, t.p) && Accepted(Step(t, ch))
    ensures On(o, ch, o', Step(t, ch))
  {
    hide Step, Behind, VersionNext, OnVersion, AllIdle, AllInner, MethodText;
    BehindMore(o.lead, o.mthd, o.gap + (o.target + [CR]), ch);
    OnlyFeed(t.p.mthd, ch);
    VersionByte(t, ch);
    VersionKeeps(t.p, ch);
    assert o.gap + (o.target + [CR]) + [LF] == o.gap + (o.target + [CR, LF]);
    o' := Arrived(o.lead, o.mthd, o.gap, o.target, Versionless([CR, LF]));
  }

  /** The form of all that was read of a request line. */
  lemma {:induction false} OpeningOf(s: Run, xs: seq<Byte>) returns (o: Opening)
    requires InHead(s) && s.p.state == S_START_REQ && Accepted(Fold(s, xs))
    requires forall i :: 0 <= i < |xs| ==> Fold(s, xs[..i]).p.state < S_HEADER_FIELD_START
    ensures OpeningText(o) == xs && InHead(Fold(s, xs)) && OpeningOk(o, Fold(s, xs).p)
  {
    hide Fold, Step, OpeningText, AllIdle, AllInner;
    if xs == [] {
      FoldNone(s);
      o := Leading([]);
      NothingLeads();
    } else {
      var init, last := xs[..|xs| - 1], xs[|xs| - 1];
      assert init + [last] == xs;
      Last(s, init, last);
      assert forall i :: 0 <= i < |init| ==> init[..i] == xs[..i];
      var t := Fold(s, init);
      assert Fold(s, xs[..|init|]).p.state < S_HEADER_FIELD_START;
      o := OpeningOf(s, init);
      match o
      case Leading(_) => o := LeadStep(t, o, last);
      case Lettering(_, _) => o := LetterStep(s, t, o, last);
      case Gapping(_, _, _) => o := GapStep(t, o, last);
      case Targeting(_, _, _, _) => o := TargetStep(t, o, last);
      case Versioning(_, _, _, _, _) => o := VersionStepOn(t, o, last);
      case Feeding(_, _, _, _) => o := FeedStep(t, o, last);
      case Arrived(_, _, _, _, _) =>
    }
  }

  lemma NothingLeads()
    ensures OpeningText(Leading([])) == [] && AllIdle(S_START_REQ, [])
  {
  }

  // Whole heads.

  /** An input that is the first to get to the end of a head. */
  predicate EndsHead(s: Run, xs: seq<Byte>) {
    && Accepted(Fold(s, xs)) && !InFront(Fold(s, xs).p.state)
    && forall i :: 0 <= i < |xs| ==> InFront(Fold(s, xs[..i]).p.state)
  }

  /** The first place where the request line is over. */
  lemma LineOverAt(s: Run, xs: seq<Byte>, n: nat) returns (k: nat)
    requires n <= |xs| && S_HEADER_FIELD_START <= Fold(s, xs[..n]).p.state
    ensures k <= n && S_HEADER_FIELD_START <= Fold(s, xs[..k]).p.state
    ensures forall i :: 0 <= i < k ==> Fold(s, xs[..i]).p.state < S_HEADER_FIELD_START
  {
    hide Fold;
    k := 0;
    while k < n && Fold(s, xs[..k]).p.state < S_HEADER_FIELD_START
      invariant k <= n && forall i :: 0 <= i < k ==> Fold(s, xs[..i]).p.state < S_HEADER_FIELD_START
    {
      k := k + 1;
    }
  }

  /** Every input that is accepted up to the end of a head is the text of one. */
  lemma OnlyHeads(s: Run, xs: seq<Byte>) returns (h: Head)
    requires InHead(s) && s.p.state == S_START_REQ && EndsHead(s, xs)
    ensures HeadOk(h) && HeadText(h) == xs
  {
    hide Fold, InFront, LinesOk, LinesText, AllIdle, AllInner, TailOk, TailText, MethodText, IsEol;
    assert xs[..|xs|] == xs;
    NotInFront(Fold(s, xs).p.state);
    var k := LineOverAt(s, xs, |xs|);
    var line, rest := xs[..k], xs[k..];
    assert line + rest == xs && forall i :: 0 <= i < k ==> line[..i] == xs[..i];
    Prefix(s, line, rest);
    var o := OpeningOf(s, line);
    var t := Fold(s, line);
    assert o.Arrived?;
    forall i | 0 <= i < |rest| ensures InFront(Fold(t, rest[..i]).p.state) {
      assert xs[..k + i] == line + rest[..i];
      FoldConcat(s, line, rest[..i]);
    }
    var ls, eol := OnlyBlocks(t, rest);
    h := Head(o.lead, o.mthd, o.gap, o.target, o.tail, ls, eol);
    assert LineOf(h) == line;
  }

  lemma NotInFront(st: State)
    requires !InFront(st)
    ensures S_HEADER_FIELD_START <= st
  {
  }

  /** Exactly which inputs get to the end of a head: the texts of heads that fit, with a
      target that is one and header lines that can be taken and say how long the body
      is. */
  lemma HeadsAre(s: Run, xs: seq<Byte>)
    requires InHead(s) && s.p.state == S_START_REQ
    ensures EndsHead(s, xs) ==> exists h :: HeadOk(h) && HeadText(h) == xs && Takable(s, h) && Framing(s.p, h)
    ensures (exists h :: HeadOk(h) && HeadText(h) == xs && Takable(s, h) && Framing(s.p, h)) ==> Accepted(Fold(s, xs))
  {
    hide Fold, HeadOk, HeadText, Takable, Framing, InFront;
    if EndsHead(s, xs) {
      var h := OnlyHeads(s, xs);
      HeadIsAcceptedIff(s, h);
    }
    if h :| HeadOk(h) && HeadText(h) == xs && Takable(s, h) && Framing(s.p, h) {
      HeadIsAcceptedIff(s, h);
    }
  }
}
