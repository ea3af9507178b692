/** The head of a request: exactly which heads are accepted, and that what is read
    is what was written. */
module HttpHead {
  import Sequences
  import opened HttpTypes
  import opened HttpStep
  import opened HttpInvariant
  import opened HttpFold
  import opened HttpNames
  import opened HttpLines
  import opened HttpFields
  import opened HttpMethods

  // The target.

  /** Where the bytes of a target lead. */
  function Target(m: Method, xs: seq<Byte>): State
    requires xs != []
  {
    if |xs| == 1 then ParseUrlChar(UrlStart(m), xs[0]) else ParseUrlChar(Target(m, xs[..|xs| - 1]), xs[|xs| - 1])
  }

  predicate Inner(ch: Byte) { ch != ' ' && ch != CR && ch != LF }

  predicate AllInner(xs: seq<Byte>) { forall k :: 0 <= k < |xs| ==> Inner(xs[k]) }

  /** A target that can be followed by a version: it is not over inside a scheme or
      before a server name. */
  predicate TargetOk(m: Method, xs: seq<Byte>) {
    xs != [] && AllInner(xs) && S_REQ_SERVER <= Target(m, xs) <= S_REQ_QUERY_STRING
  }

  lemma TargetNext(c: Parser, ch: Byte)
    requires c.errno == CHPE_OK && Inner(ch) && (c.state == S_REQ_SPACES_BEFORE_URL || UrlState(c.state))
    ensures var st := ParseUrlChar(if c.state == S_REQ_SPACES_BEFORE_URL then UrlStart(c.mthd) else c.state, ch);
            && (Next(c, ch).errno == CHPE_OK <==> st != S_DEAD)
            && (st != S_DEAD ==> Next(c, ch) == Go(c, st) && Events(c, ch) == [Data(Url, [ch])])
            && Next(c, ch).state != S_HEADERS_DONE
  {
    hide ParseUrlChar;
    assert Next(c, ch) == OnRequestLine(c, ch);
  }

  lemma TargetByte(s: Run, ch: Byte)
    requires InHead(s) && Inner(ch) && (s.p.state == S_REQ_SPACES_BEFORE_URL || UrlState(s.p.state))
    ensures var st := ParseUrlChar(if s.p.state == S_REQ_SPACES_BEFORE_URL then UrlStart(s.p.mthd) else s.p.state, ch);
            && (Accepted(Step(s, ch)) <==> s.p.nread < MAX_HEADER_SIZE && st != S_DEAD)
            && (Accepted(Step(s, ch)) ==>
                  Step(s, ch) == s.(p := s.p.(state := st, nread := s.p.nread + 1), log := Emit(s.log, Data(Url, [ch]))))
  {
    StepIs(s, ch);
    if s.p.nread < MAX_HEADER_SIZE {
      var c := s.p.(nread := s.p.nread + 1);
      TargetNext(c, ch);
      hide Next, Events, Stops, Step, ParseUrlChar;
      DataByte(s, ch, Next(c, ch), Url);
    }
  }

  lemma DeadStays(ch: Byte)
    ensures ParseUrlChar(S_DEAD, ch) == S_DEAD
  {
  }

  lemma InnerMore(xs: seq<Byte>)
    requires xs != [] && AllInner(xs)
    ensures AllInner(xs[..|xs| - 1]) && Inner(xs[|xs| - 1])
  {
    hide Inner;
  }

  lemma TargetMore(m: Method, xs: seq<Byte>)
    requires xs != []
    ensures |xs| == 1 ==> Target(m, xs) == ParseUrlChar(UrlStart(m), xs[0])
    ensures |xs| > 1 ==> Target(m, xs) == ParseUrlChar(Target(m, xs[..|xs| - 1]), xs[|xs| - 1])
    ensures |xs| > 1 && Target(m, xs[..|xs| - 1]) == S_DEAD ==> Target(m, xs) == S_DEAD
  {
    DeadStays(xs[|xs| - 1]);
    hide ParseUrlChar;
  }

  /** How a target is read: taken exactly if none of its bytes leads nowhere, and
      delivered as it stands. */
  predicate Reads(s: Run, xs: seq<Byte>, t: Run)
    requires xs != []
  {
    var n, st := s.p.nread + |xs|, Target(s.p.mthd, xs);
    && (Accepted(t) <==> n <= MAX_HEADER_SIZE && st != S_DEAD)
    && (Accepted(t) ==> UrlState(st) && t == s.(p := s.p.(state := st, nread := n), log := Emit(s.log, Data(Url, xs))))
  }

  lemma ReadsFirst(s: Run, ch: Byte)
    requires InHead(s) && s.p.state == S_REQ_SPACES_BEFORE_URL && Inner(ch)
    ensures Reads(s, [ch], Step(s, ch))
  {
    TargetMore(s.p.mthd, [ch]);
    TargetByte(s, ch);
    hide Step, ParseUrlChar, Inner, Target, Emit;
  }

  lemma ReadsMore(s: Run, init: seq<Byte>, ch: Byte, t: Run)
    requires InHead(s) && s.p.state == S_REQ_SPACES_BEFORE_URL && init != [] && Inner(ch)
    requires Reads(s, init, t) && Accepted(t)
    ensures Reads(s, init + [ch], Step(t, ch))
  {
    assert (init + [ch])[..|init|] == init;
    TargetMore(s.p.mthd, init + [ch]);
    TargetByte(t, ch);
    EmitJoins(s.log, Url, init, [ch]);
    hide Step, ParseUrlChar, Inner, Target, Emit;
  }

  lemma ReadsRefused(s: Run, init: seq<Byte>, ch: Byte, t: Run, u: Run)
    requires init != [] && Reads(s, init, t) && !Accepted(t) && !Accepted(u)
    ensures Reads(s, init + [ch], u)
  {
    assert (init + [ch])[..|init|] == init;
    TargetMore(s.p.mthd, init + [ch]);
    hide ParseUrlChar, Target, Emit;
  }

  lemma {:induction false} TargetIsRead(s: Run, xs: seq<Byte>)
    requires InHead(s) && s.p.state == S_REQ_SPACES_BEFORE_URL && xs != [] && AllInner(xs)
    ensures Reads(s, xs, Fold(s, xs))
  {
    InnerMore(xs);
    hide Step, Fold, Inner, AllInner, Reads;
    var init, last := xs[..|xs| - 1], xs[|xs| - 1];
    if init == [] {
      assert xs == [last];
      FoldOne(s, last);
      ReadsFirst(s, last);
    } else {
      TargetIsRead(s, init);
      assert init + [last] == xs;
      Last(s, init, last);
      if Accepted(Fold(s, init)) {
        ReadsMore(s, init, last, Fold(s, init));
      } else {
        ReadsRefused(s, init, last, Fold(s, init), Fold(s, xs));
      }
    }
  }

  lemma TargetEnds(s: Run)
    requires InHead(s) && UrlState(s.p.state)
    ensures Accepted(Step(s, ' ')) <==> s.p.nread < MAX_HEADER_SIZE && s.p.state >= S_REQ_SERVER
    ensures Accepted(Step(s, ' ')) ==> Step(s, ' ') == s.(p := s.p.(state := S_REQ_HTTP_START, nread := s.p.nread + 1))
  {
    StepIs(s, ' ');
    if s.p.nread < MAX_HEADER_SIZE {
      var c := s.p.(nread := s.p.nread + 1);
      TargetOver(c);
      EmitNone(s.log);
      hide Next, Events, Stops, Step;
      NoStop(c, ' ');
    }
  }

  lemma TargetOver(c: Parser)
    requires c.errno == CHPE_OK && UrlState(c.state)
    ensures Next(c, ' ').errno == CHPE_OK <==> c.state >= S_REQ_SERVER
    ensures c.state >= S_REQ_SERVER ==> Next(c, ' ') == Go(c, S_REQ_HTTP_START)
    ensures Next(c, ' ').errno == CHPE_OK ==> Events(c, ' ') == []
    ensures Next(c, ' ').state != S_HEADERS_DONE
  {
    assert Next(c, ' ') == OnRequestLine(c, ' ');
  }

  /** A target and the space behind it. */
  lemma TargetPart(s: Run, xs: seq<Byte>)
    requires InHead(s) && s.p.state == S_REQ_SPACES_BEFORE_URL && xs != [] && AllInner(xs)
    ensures var t, n := Fold(s, xs + [' ']), s.p.nread + |xs| + 1;
            && (Accepted(t) <==> n <= MAX_HEADER_SIZE && TargetOk(s.p.mthd, xs))
            && (Accepted(t) ==>
                  t == s.(p := s.p.(state := S_REQ_HTTP_START, nread := n), log := Emit(s.log, Data(Url, xs))))
  {
    hide Step, Fold, ParseUrlChar, Inner, Target;
    Last(s, xs, ' ');
    TargetIsRead(s, xs);
    if Accepted(Fold(s, xs)) {
      TargetEnds(Fold(s, xs));
    }
  }

  /** Every path is a target, with or without a query. */
  lemma {:induction false} PathIsTarget(m: Method, xs: seq<Byte>)
    requires m != M_CONNECT && xs != [] && xs[0] == '/' && forall k :: 0 <= k < |xs| ==> IsUrlChar(xs[k]) || xs[k] == '?'
    ensures S_REQ_PATH <= Target(m, xs) <= S_REQ_QUERY_STRING && AllInner(xs) && TargetOk(m, xs)
  {
    if |xs| > 1 {
      PathIsTarget(m, xs[..|xs| - 1]);
    }
  }

  // The version.

  /** Going through the states of the version, up to the first header line. */
  predicate VersionRuns(m: Method, st: State, xs: seq<Byte>)
    decreases |xs|
  {
    if st == S_HEADER_FIELD_START then xs == []
    else
      && S_REQ_HTTP_START <= st <= S_REQ_LINE_ALMOST_DONE && xs != [] && VersionNext(st, xs[0], m).To?
      && VersionRuns(m, VersionNext(st, xs[0], m).state, xs[1..])
  }

  /** A version as it can be written: behind any spaces, with a word for HTTP. */
  datatype Version = Version(spaces: seq<Byte>, word: seq<Byte>, major: Byte, minor: Byte, eol: seq<Byte>)

  predicate IsEol(eol: seq<Byte>) { eol == [CR, LF] || eol == [LF] }

  predicate VersionOk(m: Method, v: Version) {
    && (forall k :: 0 <= k < |v.spaces| ==> v.spaces[k] == ' ')
    && (v.word == ['H', 'T', 'T', 'P'] || (v.word == ['I', 'C', 'E'] && m == M_SOURCE))
    && IsNum(v.major) && IsNum(v.minor) && IsEol(v.eol)
  }

  function VersionText(v: Version): seq<Byte> { v.spaces + (v.word + (['/', v.major, '.', v.minor] + v.eol)) }

  lemma VersionStep(m: Method, st: State, xs: seq<Byte>)
    requires S_REQ_HTTP_START <= st <= S_REQ_LINE_ALMOST_DONE
    ensures VersionRuns(m, st, xs)
            <==> xs != [] && VersionNext(st, xs[0], m).To? && VersionRuns(m, VersionNext(st, xs[0], m).state, xs[1..])
  {
  }

  lemma EndRuns(m: Method, xs: seq<Byte>)
    ensures VersionRuns(m, S_REQ_HTTP_END, xs) <==> IsEol(xs)
  {
    if xs != [] {
      VersionStep(m, S_REQ_HTTP_END, xs);
      assert xs == [xs[0]] + xs[1..];
      if |xs| > 1 {
        VersionStep(m, S_REQ_LINE_ALMOST_DONE, xs[1..]);
        assert xs[1..] == [xs[1]] + xs[2..];
      }
    }
  }

  /** Behind the word: a slash, two digits with a dot, the line end. */
  lemma DigitsRun(m: Method, xs: seq<Byte>)
    ensures VersionRuns(m, S_REQ_HTTP_HTTP, xs)
            <==> |xs| > 4 && xs[0] == '/' && IsNum(xs[1]) && xs[2] == '.' && IsNum(xs[3]) && IsEol(xs[4..])
  {
    VersionStep(m, S_REQ_HTTP_HTTP, xs);
    if |xs| > 0 {
      VersionStep(m, S_REQ_HTTP_MAJOR, xs[1..]);
    }
    if |xs| > 1 {
      assert xs[1..][0] == xs[1] && xs[1..][1..] == xs[2..];
      VersionStep(m, S_REQ_HTTP_DOT, xs[2..]);
    }
    if |xs| > 2 {
      assert xs[2..][0] == xs[2] && xs[2..][1..] == xs[3..];
      VersionStep(m, S_REQ_HTTP_MINOR, xs[3..]);
    }
    if |xs| > 3 {
      assert xs[3..][0] == xs[3] && xs[3..][1..] == xs[4..];
      EndRuns(m, xs[4..]);
    }
    hide VersionRuns, IsEol;
  }

  lemma HttpRuns(m: Method, xs: seq<Byte>)
    ensures VersionRuns(m, S_REQ_HTTP_H, xs) <==> ['T', 'T', 'P'] <= xs && VersionRuns(m, S_REQ_HTTP_HTTP, xs[3..])
  {
    VersionStep(m, S_REQ_HTTP_H, xs);
    if |xs| > 0 {
      VersionStep(m, S_REQ_HTTP_HT, xs[1..]);
    }
    if |xs| > 1 {
      assert xs[1..][0] == xs[1] && xs[1..][1..] == xs[2..];
      VersionStep(m, S_REQ_HTTP_HTT, xs[2..]);
    }
    if |xs| > 2 {
      assert xs[2..][0] == xs[2] && xs[2..][1..] == xs[3..];
    }
    hide VersionRuns;
  }

  lemma IceRuns(m: Method, xs: seq<Byte>)
    ensures VersionRuns(m, S_REQ_HTTP_I, xs) <==> ['C', 'E'] <= xs && VersionRuns(m, S_REQ_HTTP_HTTP, xs[2..])
  {
    VersionStep(m, S_REQ_HTTP_I, xs);
    if |xs| > 0 {
      VersionStep(m, S_REQ_HTTP_IC, xs[1..]);
    }
    if |xs| > 1 {
      assert xs[1..][0] == xs[1] && xs[1..][1..] == xs[2..];
    }
    hide VersionRuns;
  }

  /** What can stand behind a target: spaces, a word for HTTP, and the digits. */
  lemma {:induction false} VersionStarts(m: Method, xs: seq<Byte>)
    ensures VersionRuns(m, S_REQ_HTTP_START, xs)
            <==> || (xs != [] && xs[0] == ' ' && VersionRuns(m, S_REQ_HTTP_START, xs[1..]))
                 || (['H', 'T', 'T', 'P'] <= xs && VersionRuns(m, S_REQ_HTTP_HTTP, xs[4..]))
                 || (m == M_SOURCE && ['I', 'C', 'E'] <= xs && VersionRuns(m, S_REQ_HTTP_HTTP, xs[3..]))
  {
    VersionStep(m, S_REQ_HTTP_START, xs);
    if xs != [] {
      HttpRuns(m, xs[1..]);
      IceRuns(m, xs[1..]);
      assert ['H', 'T', 'T', 'P'] <= xs <==> xs[0] == 'H' && ['T', 'T', 'P'] <= xs[1..];
      assert ['I', 'C', 'E'] <= xs <==> xs[0] == 'I' && ['C', 'E'] <= xs[1..];
      assert |xs| > 3 ==> xs[1..][3..] == xs[4..];
      assert |xs| > 2 ==> xs[1..][2..] == xs[3..];
    }
    hide VersionRuns;
  }

  /** The text of a version without its spaces. */
  function Bare(v: Version): seq<Byte> { v.word + (['/', v.major, '.', v.minor] + v.eol) }

  lemma BareRuns(m: Method, v: Version)
    requires VersionOk(m, v)
    ensures VersionRuns(m, S_REQ_HTTP_START, Bare(v))
  {
    var tail := ['/', v.major, '.', v.minor] + v.eol;
    DigitsRun(m, tail);
    assert tail[4..] == v.eol;
    assert Bare(v)[|v.word|..] == tail;
    VersionStarts(m, Bare(v));
  }

  lemma {:induction false} WrittenRuns(m: Method, v: Version)
    requires VersionOk(m, v)
    ensures VersionRuns(m, S_REQ_HTTP_START, VersionText(v))
    decreases |v.spaces|
  {
    if v.spaces == [] {
      assert VersionText(v) == Bare(v);
      BareRuns(m, v);
    } else {
      WrittenRuns(m, v.(spaces := v.spaces[1..]));
      assert VersionText(v)[1..] == VersionText(v.(spaces := v.spaces[1..]));
      VersionStarts(m, VersionText(v));
    }
  }

  lemma DigitsOf(m: Method, xs: seq<Byte>, word: seq<Byte>) returns (v: Version)
    requires word <= xs && VersionRuns(m, S_REQ_HTTP_HTTP, xs[|word|..])
    requires word == ['H', 'T', 'T', 'P'] || (word == ['I', 'C', 'E'] && m == M_SOURCE)
    ensures VersionOk(m, v) && VersionText(v) == xs
  {
    var ys := xs[|word|..];
    DigitsRun(m, ys);
    v := Version([], word, ys[1], ys[3], ys[4..]);
    assert ys == ['/', v.major, '.', v.minor] + v.eol;
    assert xs == word + ys;
  }

  lemma MoreSpaces(m: Method, u: Version) returns (v: Version)
    requires VersionOk(m, u)
    ensures VersionOk(m, v) && VersionText(v) == [' '] + VersionText(u)
  {
    v := u.(spaces := [' '] + u.spaces);
  }

  lemma {:induction false} OnlyWritten(m: Method, xs: seq<Byte>) returns (v: Version)
    requires VersionRuns(m, S_REQ_HTTP_START, xs)
    ensures VersionOk(m, v) && VersionText(v) == xs
    decreases |xs|
  {
    VersionStarts(m, xs);
    if xs != [] && xs[0] == ' ' && VersionRuns(m, S_REQ_HTTP_START, xs[1..]) {
      var u := OnlyWritten(m, xs[1..]);
      v := MoreSpaces(m, u);
      assert [' '] + xs[1..] == xs;
    } else if ['H', 'T', 'T', 'P'] <= xs && VersionRuns(m, S_REQ_HTTP_HTTP, xs[4..]) {
      v := DigitsOf(m, xs, ['H', 'T', 'T', 'P']);
    } else {
      v := DigitsOf(m, xs, ['I', 'C', 'E']);
    }
  }

  /** What leads from a target to the first header line is a version as it can be
      written, and nothing else: HTTP or, for the method SOURCE, also ICE. */
  lemma VersionIff(m: Method, xs: seq<Byte>)
    ensures VersionRuns(m, S_REQ_HTTP_START, xs) <==> exists v :: VersionOk(m, v) && VersionText(v) == xs
  {
    if VersionRuns(m, S_REQ_HTTP_START, xs) {
      var v := OnlyWritten(m, xs);
    }
    forall v | VersionOk(m, v) && VersionText(v) == xs ensures VersionRuns(m, S_REQ_HTTP_START, xs) {
      WrittenRuns(m, v);
    }
  }

  /** The fields after a version. */
  function VersionRead(p: Parser, xs: seq<Byte>): Parser
    decreases |xs|
  {
    if xs == [] then p
    else VersionRead(if S_REQ_HTTP_START <= p.state <= S_REQ_LINE_ALMOST_DONE then OnVersion(p, xs[0]) else p, xs[1..])
  }

  predicate InVersion(st: State) { S_REQ_HTTP_START <= st <= S_REQ_LINE_ALMOST_DONE }

  lemma VersionAt(p: Parser, ch: Byte)
    requires InVersion(p.state) && p.errno == CHPE_OK
    ensures var q, next := OnVersion(p, ch), VersionNext(p.state, ch, p.mthd);
            && (q.errno == CHPE_OK <==> next.To?)
            && (next.To? ==> q.state == next.state)
            && q.state <= S_HEADER_FIELD_START
  {
    hide VersionNext;
  }

  lemma VersionByte(s: Run, ch: Byte)
    requires InHead(s) && InVersion(s.p.state)
    ensures Accepted(Step(s, ch)) <==> s.p.nread < MAX_HEADER_SIZE && VersionNext(s.p.state, ch, s.p.mthd).To?
    ensures Accepted(Step(s, ch)) ==>
              && Step(s, ch) == s.(p := OnVersion(s.p, ch).(nread := s.p.nread + 1))
              && Step(s, ch).p.state == VersionNext(s.p.state, ch, s.p.mthd).state && InHead(Step(s, ch))
  {
    hide VersionNext, Next, Events, Stops, Step, OnVersion;
    StepIs(s, ch);
    VersionAt(s.p, ch);
    if s.p.nread < MAX_HEADER_SIZE {
      var c := s.p.(nread := s.p.nread + 1);
      VersionOn(c, ch);
      OnVersionNotCounted(s.p, c.nread, ch);
      EmitNone(s.log);
      NoStop(c, ch);
    }
  }

  lemma VersionOn(c: Parser, ch: Byte)
    requires InVersion(c.state)
    ensures Next(c, ch) == OnVersion(c, ch) && Events(c, ch) == []
  {
    hide VersionNext;
  }

  lemma OnVersionNotCounted(p: Parser, n: nat, ch: Byte)
    requires InVersion(p.state)
    ensures OnVersion(p.(nread := n), ch) == OnVersion(p, ch).(nread := n)
  {
    hide VersionNext;
  }

  lemma VersionReadMore(p: Parser, n: nat, xs: seq<Byte>)
    requires xs != [] && InVersion(p.state)
    ensures VersionRead(p.(nread := n), xs) == VersionRead(OnVersion(p, xs[0]).(nread := n), xs[1..])
  {
    OnVersionNotCounted(p, n, xs[0]);
    hide OnVersion;
  }

  lemma {:induction false} VersionIsTaken(s: Run, xs: seq<Byte>)
    requires InHead(s) && VersionRuns(s.p.mthd, s.p.state, xs)
    ensures var t, n := Fold(s, xs), s.p.nread + |xs|;
            && (Accepted(t) <==> n <= MAX_HEADER_SIZE)
            && (Accepted(t) ==> t == s.(p := VersionRead(s.p, xs).(nread := n)))
    decreases |xs|
  {
    hide Step, Fold, VersionNext, OnVersion, VersionRead;
    if s.p.state == S_HEADER_FIELD_START {
      ReadNone(s.p);
      FoldNone(s);
    } else {
      var rest := xs[1..];
      assert xs == [xs[0]] + rest;
      Prefix(s, [xs[0]], rest);
      FoldOne(s, xs[0]);
      VersionByte(s, xs[0]);
      VersionReadMore(s.p, s.p.nread, xs);
      var u := Step(s, xs[0]);
      if Accepted(u) {
        SameMethodThere(s.p, xs[0]);
        VersionIsTaken(u, rest);
        ReadNotCounted(OnVersion(s.p, xs[0]), s.p.nread, u.p.nread, rest);
      }
    }
  }

  lemma SameMethodThere(p: Parser, ch: Byte)
    requires InVersion(p.state)
    ensures OnVersion(p, ch).mthd == p.mthd
  {
  }

  lemma {:induction false} ReadNotCounted(p: Parser, m: nat, n: nat, xs: seq<Byte>)
    ensures VersionRead(p.(nread := m), xs).(nread := n) == VersionRead(p.(nread := n), xs)
    decreases |xs|
  {
    if xs != [] {
      hide OnVersion;
      if InVersion(p.state) {
        OnVersionNotCounted(p, m, xs[0]);
        OnVersionNotCounted(p, n, xs[0]);
        ReadNotCounted(OnVersion(p, xs[0]), m, n, xs[1..]);
      } else {
        ReadNotCounted(p, m, n, xs[1..]);
      }
    }
  }

  /** Nothing else gets to the first header line. */
  lemma {:induction false} OnlyVersions(s: Run, xs: seq<Byte>)
    requires InHead(s) && (InVersion(s.p.state) || (s.p.state == S_HEADER_FIELD_START && xs == []))
    requires Accepted(Fold(s, xs)) && Fold(s, xs).p.state == S_HEADER_FIELD_START
    requires forall i :: 0 <= i < |xs| ==> Fold(s, xs[..i]).p.state != S_HEADER_FIELD_START
    ensures VersionRuns(s.p.mthd, s.p.state, xs)
    decreases |xs|
  {
    hide Step, Fold, VersionNext, OnVersion;
    if xs == [] {
      FoldNone(s);
    } else {
      var rest := xs[1..];
      assert xs == [xs[0]] + rest;
      Prefix(s, [xs[0]], rest);
      FoldOne(s, xs[0]);
      VersionByte(s, xs[0]);
      SameMethodThere(s.p, xs[0]);
      var u := Step(s, xs[0]);
      if rest == [] {
        FoldNone(u);
      } else {
        assert xs[..1] == [xs[0]];
        forall i | 0 <= i < |rest| ensures Fold(u, rest[..i]).p.state != S_HEADER_FIELD_START {
          assert xs[..i + 1] == [xs[0]] + rest[..i];
          FoldConcat(s, [xs[0]], rest[..i]);
        }
        VersionTo(s.p.state, xs[0], s.p.mthd);
        assert Fold(s, xs[..1]).p.state != S_HEADER_FIELD_START;
      }
      OnlyVersions(u, rest);
    }
  }

  lemma VersionTo(st: State, ch: Byte, m: Method)
    requires InVersion(st)
    ensures VersionNext(st, ch, m).To? ==> InVersion(VersionNext(st, ch, m).state)
                                           || VersionNext(st, ch, m).state == S_HEADER_FIELD_START
  {
  }

  lemma {:induction false} ReadConcat(p: Parser, a: seq<Byte>, b: seq<Byte>)
    ensures VersionRead(p, a + b) == VersionRead(VersionRead(p, a), b)
    decreases |a|
  {
    if a == [] {
      assert a + b == b;
    } else {
      hide OnVersion;
      assert (a + b)[0] == a[0] && (a + b)[1..] == a[1..] + b;
      ReadConcat(if InVersion(p.state) then OnVersion(p, a[0]) else p, a[1..], b);
    }
  }

  lemma ReadOne(p: Parser, xs: seq<Byte>)
    requires InVersion(p.state) && xs != []
    ensures VersionRead(p, xs) == VersionRead(OnVersion(p, xs[0]), xs[1..])
  {
    hide OnVersion;
  }

  lemma {:induction false} SpacesRead(p: Parser, xs: seq<Byte>)
    requires p.state == S_REQ_HTTP_START && forall k :: 0 <= k < |xs| ==> xs[k] == ' '
    ensures VersionRead(p, xs) == p
    decreases |xs|
  {
    if xs != [] {
      ReadOne(p, xs);
      assert OnVersion(p, ' ') == p;
      SpacesRead(p, xs[1..]);
    }
  }

  lemma HttpRead(p: Parser)
    requires p.state == S_REQ_HTTP_START
    ensures VersionRead(p, ['H', 'T', 'T', 'P']) == Go(p, S_REQ_HTTP_HTTP)
  {
    hide VersionRead;
    ReadOne(p, ['H', 'T', 'T', 'P']);
    ReadOne(Go(p, S_REQ_HTTP_H), ['T', 'T', 'P']);
    ReadOne(Go(p, S_REQ_HTTP_HT), ['T', 'P']);
    ReadOne(Go(p, S_REQ_HTTP_HTT), ['P']);
    assert ['H', 'T', 'T', 'P'][1..] == ['T', 'T', 'P'] && ['T', 'T', 'P'][1..] == ['T', 'P'];
    assert ['T', 'P'][1..] == ['P'] && ['P'][1..] == [];
    assert OnVersion(p, 'H') == Go(p, S_REQ_HTTP_H) && OnVersion(Go(p, S_REQ_HTTP_HTT), 'P') == Go(p, S_REQ_HTTP_HTTP);
    ReadNone(Go(p, S_REQ_HTTP_HTTP));
  }

  lemma ReadNone(p: Parser)
    ensures VersionRead(p, []) == p
  {
  }

  lemma IceRead(p: Parser)
    requires p.state == S_REQ_HTTP_START && p.mthd == M_SOURCE
    ensures VersionRead(p, ['I', 'C', 'E']) == Go(p, S_REQ_HTTP_HTTP)
  {
    ReadOne(p, ['I', 'C', 'E']);
    ReadOne(Go(p, S_REQ_HTTP_I), ['C', 'E']);
    ReadOne(Go(p, S_REQ_HTTP_IC), ['E']);
    assert ['I', 'C', 'E'][1..] == ['C', 'E'] && ['C', 'E'][1..] == ['E'] && ['E'][1..] == [];
    hide VersionRead;
    assert OnVersion(p, 'I') == Go(p, S_REQ_HTTP_I);
    ReadNone(Go(p, S_REQ_HTTP_HTTP));
  }

  lemma DigitsRead(p: Parser, major: Byte, minor: Byte)
    requires p.state == S_REQ_HTTP_HTTP && IsNum(major) && IsNum(minor)
    ensures VersionRead(p, ['/', major, '.', minor]) == p.(state := S_REQ_HTTP_END, major := Digit(major), minor := Digit(minor))
  {
    hide VersionRead, Digit;
    var a, b := ['/', major, '.', minor], [major, '.', minor];
    var q := Go(p, S_REQ_HTTP_MAJOR);
    var r := p.(state := S_REQ_HTTP_DOT, major := Digit(major));
    var u := Go(r, S_REQ_HTTP_MINOR);
    ReadOne(p, a);
    ReadOne(q, b);
    ReadOne(r, ['.', minor]);
    ReadOne(u, [minor]);
    assert a[1..] == b && b[1..] == ['.', minor] && ['.', minor][1..] == [minor] && [minor][1..] == [];
    assert OnVersion(p, '/') == q && OnVersion(q, major) == r && OnVersion(r, '.') == u;
    ReadNone(OnVersion(u, minor));
  }

  lemma EolRead(p: Parser, eol: seq<Byte>)
    requires p.state == S_REQ_HTTP_END && IsEol(eol)
    ensures VersionRead(p, eol) == Go(p, S_HEADER_FIELD_START)
  {
    ReadOne(p, eol);
    if |eol| == 2 {
      assert eol[1..] == [LF];
      ReadOne(Go(p, S_REQ_LINE_ALMOST_DONE), [LF]);
    }
    assert [LF][1..] == [];
    hide VersionRead;
    ReadNone(Go(p, S_HEADER_FIELD_START));
  }

  /** A version is taken if it fits into the head, and is the two digits written. */
  lemma VersionIsRead(s: Run, v: Version)
    requires InHead(s) && s.p.state == S_REQ_HTTP_START && VersionOk(s.p.mthd, v)
    ensures var t, n := Fold(s, VersionText(v)), s.p.nread + |VersionText(v)|;
            && (Accepted(t) <==> n <= MAX_HEADER_SIZE)
            && (Accepted(t) ==>
                  t == s.(p := s.p.(state := S_HEADER_FIELD_START, nread := n, major := Digit(v.major), minor := Digit(v.minor))))
  {
    hide Step, Fold, VersionNext, OnVersion, VersionRuns, VersionRead, Digit;
    WrittenRuns(s.p.mthd, v);
    VersionIsTaken(s, VersionText(v));
    var digits: seq<Byte> := ['/', v.major, '.', v.minor];
    SpacesRead(s.p, v.spaces);
    ReadConcat(s.p, v.spaces, v.word + (digits + v.eol));
    ReadConcat(s.p, v.word, digits + v.eol);
    if v.word == ['H', 'T', 'T', 'P'] {
      HttpRead(s.p);
    } else {
      IceRead(s.p);
    }
    var q := Go(s.p, S_REQ_HTTP_HTTP);
    ReadConcat(q, digits, v.eol);
    DigitsRead(q, v.major, v.minor);
    EolRead(VersionRead(q, digits), v.eol);
  }

  // The end of the head.

  predicate Upgrades(p: Parser) { p.flags.upgrade || p.mthd == M_CONNECT }

  /** The parser knows how long the body is. */
  predicate EndOk(p: Parser) {
    !FramingConflict(p) && (Upgrades(p) || p.flags.skipBody || p.flags.chunked || !p.usesTE || p.lenient)
  }

  /** There is no body. */
  predicate Complete(p: Parser) {
    || Upgrades(p) || p.flags.skipBody
    || (!p.flags.chunked && !p.usesTE && (p.contentLength == 0 || p.contentLength == ULLONG_MAX))
  }

  /** The fields behind the head. */
  function BehindHead(p: Parser): Parser {
    p.(upgrade := Upgrades(p), nread := 0,
       state := if Complete(p) then S_HEADERS_DONE else if p.flags.chunked then S_CHUNK_SIZE_START
                else if p.usesTE then S_BODY_IDENTITY_EOF else S_BODY_IDENTITY)
  }

  function EndLog(log: Log, p: Parser): Log {
    var done := Emit(log, Notified(HeadersComplete));
    if Complete(p) then Emit(done, Notified(MessageComplete)) else done
  }

  lemma OverNext(p: Parser)
    requires p.errno == CHPE_OK && !p.flags.trailing
    ensures var q := OnHeadersAlmostDone(Go(p, S_HEADERS_ALMOST_DONE), LF);
            && (q.errno == CHPE_OK <==> EndOk(p)) && (EndOk(p) ==> q == BehindHead(p))
  {
  }

  lemma OverEvents(log: Log, p: Parser)
    requires !p.flags.trailing && EndOk(p)
    ensures EmitAll(log, HeadersEndEvents(Go(p, S_HEADERS_ALMOST_DONE))) == EndLog(log, p)
  {
    EmitOne(log, Notified(HeadersComplete));
    EmitTwo(log, Notified(HeadersComplete), Notified(MessageComplete));
    hide Emit, EmitAll;
    assert [Notified(HeadersComplete)] + [Notified(MessageComplete)] == [Notified(HeadersComplete), Notified(MessageComplete)];
    assert [Notified(HeadersComplete)] + [] == [Notified(HeadersComplete)];
  }

  /** A line feed at the end of the head, on a line of its own or behind CR. */
  lemma FeedNext(c: Parser)
    requires c.errno == CHPE_OK && (AtLine(c.state) || c.state == S_HEADERS_ALMOST_DONE)
    ensures Next(c, LF) == OnHeadersAlmostDone(Go(Ended(c), S_HEADERS_ALMOST_DONE), LF)
    ensures Events(c, LF) == (if c.state == S_HEADER_VALUE_DISCARD_LWS then [Data(HeaderValue, [])] else [])
                             + HeadersEndEvents(Go(Ended(c), S_HEADERS_ALMOST_DONE))
  {
    hide OnHeadersAlmostDone, HeadersEndEvents, HeaderFlags;
    var es := HeadersEndEvents(Go(Ended(c), S_HEADERS_ALMOST_DONE));
    assert [] + es == es;
    EventsAnyState(Ended(c), S_HEADERS_ALMOST_DONE);
    EventsAnyState(Ended(c), S_HEADER_FIELD_START);
    if c.state == S_HEADERS_ALMOST_DONE {
      assert Go(c, S_HEADERS_ALMOST_DONE) == c;
    } else {
      assert Next(c, LF) == OnHeader(c, LF);
    }
  }

  lemma EventsAnyState(p: Parser, st: State)
    ensures HeadersEndEvents(Go(p, st)) == HeadersEndEvents(p)
  {
  }

  lemma FeedByte(s: Run)
    requires InHead(s) && (AtLine(s.p.state) || s.p.state == S_HEADERS_ALMOST_DONE) && !Ended(s.p).flags.trailing
    ensures Accepted(Step(s, LF)) <==> s.p.nread < MAX_HEADER_SIZE && EndOk(Ended(s.p))
    ensures Accepted(Step(s, LF)) ==>
              Step(s, LF) == Run(BehindHead(Ended(s.p)), EndLog(EndedLog(s), Ended(s.p)), Upgrades(s.p.(flags := Ended(s.p).flags)), false)
  {
    hide Next, Events, Step, OnHeadersAlmostDone, HeadersEndEvents, Ended, EndedLog, EndLog, EndOk, EmitAll;
    StepIs(s, LF);
    if s.p.nread < MAX_HEADER_SIZE {
      var c := s.p.(nread := s.p.nread + 1);
      var e := Ended(c);
      EndedNotCounted(s.p, c.nread);
      FeedNext(c);
      OverNext(e);
      if EndOk(e) {
        OverEvents(EndedLog(s), e);
        FeedLog(s, HeadersEndEvents(Go(e, S_HEADERS_ALMOST_DONE)));
      }
    }
  }

  lemma FeedLog(s: Run, es: seq<Event>)
    ensures EmitAll(s.log, (if s.p.state == S_HEADER_VALUE_DISCARD_LWS then [Data(HeaderValue, [])] else []) + es)
            == EmitAll(EndedLog(s), es)
  {
    EmitOne(s.log, Data(HeaderValue, []));
    EmitAllConcat(s.log, [Data(HeaderValue, [])], es);
    assert [] + es == es;
    hide Emit, EmitAll;
  }

  lemma EndedNotCounted(p: Parser, n: nat)
    ensures Ended(p.(nread := n)) == Ended(p).(nread := n) && Ended(p).errno == p.errno && Ended(p).mthd == p.mthd
    ensures EndOk(Ended(p).(nread := n)) == EndOk(Ended(p)) && BehindHead(Ended(p).(nread := n)) == BehindHead(Ended(p))
    ensures forall log :: EndLog(log, Ended(p).(nread := n)) == EndLog(log, Ended(p))
  {
    hide HeaderFlags, Emit;
  }

  lemma CrByte(s: Run)
    requires InHead(s) && AtLine(s.p.state)
    ensures Accepted(Step(s, CR)) <==> s.p.nread < MAX_HEADER_SIZE
    ensures Accepted(Step(s, CR)) ==>
              Step(s, CR) == s.(p := Ended(s.p).(state := S_HEADERS_ALMOST_DONE, nread := s.p.nread + 1), log := EndedLog(s))
  {
    StepIs(s, CR);
    if s.p.nread < MAX_HEADER_SIZE {
      var c := s.p.(nread := s.p.nread + 1);
      CrNext(c);
      EndedNotCounted(s.p, c.nread);
      EmitNone(s.log);
      EmitOne(s.log, Data(HeaderValue, []));
      hide Next, Events, Stops, Step, Ended, Emit, EmitAll;
      NoStop(c, CR);
    }
  }

  lemma CrNext(c: Parser)
    requires c.errno == CHPE_OK && AtLine(c.state)
    ensures Next(c, CR) == Go(Ended(c), S_HEADERS_ALMOST_DONE)
    ensures Events(c, CR) == if c.state == S_HEADER_VALUE_DISCARD_LWS then [Data(HeaderValue, [])] else []
  {
    hide HeaderFlags, HeadersEndEvents;
    NoToken();
    assert Next(c, CR) == OnHeader(c, CR);
  }

  /** The empty line: it is taken exactly if the parser knows how long the body is,
      and completes a message that has none. */
  lemma HeadEnds(s: Run, eol: seq<Byte>)
    requires InHead(s) && AtLine(s.p.state) && IsEol(eol) && !Ended(s.p).flags.trailing
    ensures var t, e := Fold(s, eol), Ended(s.p);
            && (Accepted(t) <==> s.p.nread + |eol| <= MAX_HEADER_SIZE && EndOk(e))
            && (Accepted(t) ==> t == Run(BehindHead(e), EndLog(EndedLog(s), e), Upgrades(e), false))
  {
    hide Step, Fold, EndOk, BehindHead, EndLog, HeaderFlags;
    EndedKeeps(s.p);
    if eol == [LF] {
      FoldOne(s, LF);
      FeedByte(s);
    } else {
      assert eol == [CR] + [LF];
      Prefix(s, [CR], [LF]);
      FoldOne(s, CR);
      CrByte(s);
      var u := Step(s, CR);
      FoldOne(u, LF);
      if Accepted(u) {
        FeedByte(u);
        EndSame(Ended(s.p), S_HEADERS_ALMOST_DONE, u.p.nread);
      }
    }
  }

  lemma EndedKeeps(p: Parser)
    ensures Ended(p).mthd == p.mthd && Ended(p).errno == p.errno && Ended(p).state == p.state && Ended(p).nread == p.nread
  {
    hide HeaderFlags;
  }

  lemma EndSame(p: Parser, st: State, n: nat)
    ensures var q := p.(state := st, nread := n);
            EndOk(q) == EndOk(p) && BehindHead(q) == BehindHead(p) && forall log :: EndLog(log, q) == EndLog(log, p)
  {
  }

  lemma TrailerNext(p: Parser)
    requires p.errno == CHPE_OK && p.flags.trailing
    ensures OnHeadersAlmostDone(Go(p, S_HEADERS_ALMOST_DONE), LF) == Go(p, S_HEADERS_ALMOST_DONE)
    ensures HeadersEndEvents(Go(p, S_HEADERS_ALMOST_DONE)) == [Notified(MessageComplete)]
    ensures forall log: Log :: EmitAll(log, HeadersEndEvents(Go(p, S_HEADERS_ALMOST_DONE))) == Emit(log, Notified(MessageComplete))
  {
    forall log: Log ensures EmitAll(log, [Notified(MessageComplete)]) == Emit(log, Notified(MessageComplete)) {
      EmitOne(log, Notified(MessageComplete));
    }
  }

  lemma TrailerFeed(s: Run)
    requires InHead(s) && (AtLine(s.p.state) || s.p.state == S_HEADERS_ALMOST_DONE) && Ended(s.p).flags.trailing
    ensures Accepted(Step(s, LF)) <==> s.p.nread < MAX_HEADER_SIZE
    ensures Accepted(Step(s, LF)) ==>
              Step(s, LF) == s.(p := Ended(s.p).(state := S_HEADERS_ALMOST_DONE, nread := s.p.nread + 1),
                                log := Emit(EndedLog(s), Notified(MessageComplete)))
  {
    hide Next, Events, Stops, Step, OnHeadersAlmostDone, HeadersEndEvents, Ended, EndedLog, Emit, EmitAll;
    StepIs(s, LF);
    if s.p.nread < MAX_HEADER_SIZE {
      var c := s.p.(nread := s.p.nread + 1);
      EndedNotCounted(s.p, c.nread);
      var e := Ended(c);
      FeedNext(c);
      TrailerNext(e);
      FeedLog(s, HeadersEndEvents(Go(e, S_HEADERS_ALMOST_DONE)));
      NoStop(c, LF);
    }
  }

  /** The empty line behind a trailer completes the message. */
  lemma TrailerEnds(s: Run, eol: seq<Byte>)
    requires InHead(s) && AtLine(s.p.state) && IsEol(eol) && Ended(s.p).flags.trailing
    ensures var t, n := Fold(s, eol), s.p.nread + |eol|;
            && (Accepted(t) <==> n <= MAX_HEADER_SIZE)
            && (Accepted(t) ==>
                  t == s.(p := Ended(s.p).(state := S_HEADERS_ALMOST_DONE, nread := n),
                          log := Emit(EndedLog(s), Notified(MessageComplete))))
  {
    hide Step, Fold, HeaderFlags, Emit;
    EndedKeeps(s.p);
    if eol == [LF] {
      FoldOne(s, LF);
      TrailerFeed(s);
    } else {
      assert eol == [CR] + [LF];
      Prefix(s, [CR], [LF]);
      FoldOne(s, CR);
      CrByte(s);
      var u := Step(s, CR);
      FoldOne(u, LF);
      if Accepted(u) {
        TrailerFeed(u);
      }
    }
  }

  // The bytes that nothing comes of.

  /** A line end in front of a method, or a space in front of a target. */
  predicate Idle(st: State, ch: Byte) {
    (st == S_START_REQ && (ch == CR || ch == LF)) || (st == S_REQ_SPACES_BEFORE_URL && ch == ' ')
  }

  predicate AllIdle(st: State, xs: seq<Byte>) { forall k :: 0 <= k < |xs| ==> Idle(st, xs[k]) }

  lemma IdleNext(c: Parser, ch: Byte)
    requires c.errno == CHPE_OK && Idle(c.state, ch)
    ensures Next(c, ch) == c && Events(c, ch) == []
  {
    assert Next(c, ch) == OnRequestLine(c, ch);
  }

  lemma IdleByte(s: Run, ch: Byte)
    requires InHead(s) && Idle(s.p.state, ch)
    ensures Accepted(Step(s, ch)) <==> s.p.nread < MAX_HEADER_SIZE
    ensures Accepted(Step(s, ch)) ==> Step(s, ch) == s.(p := s.p.(nread := s.p.nread + 1))
  {
    hide Next, Events, Stops, Step;
    StepIs(s, ch);
    if s.p.nread < MAX_HEADER_SIZE {
      var c := s.p.(nread := s.p.nread + 1);
      IdleNext(c, ch);
      EmitNone(s.log);
      NoStop(c, ch);
    }
  }

  lemma {:induction false} IdleIsRead(s: Run, xs: seq<Byte>)
    requires InHead(s) && AllIdle(s.p.state, xs)
    ensures Accepted(Fold(s, xs)) <==> s.p.nread + |xs| <= MAX_HEADER_SIZE
    ensures Accepted(Fold(s, xs)) ==> Fold(s, xs) == s.(p := s.p.(nread := s.p.nread + |xs|))
  {
    hide Step, Fold, Idle;
    if xs == [] {
      FoldNone(s);
    } else {
      var init, last := xs[..|xs| - 1], xs[|xs| - 1];
      IdleIsRead(s, init);
      assert init + [last] == xs;
      Last(s, init, last);
      if Accepted(Fold(s, init)) {
        IdleByte(Fold(s, init), last);
      }
    }
  }

  // What follows a target.

  /** A version; or, in a GET request, nothing but the line end. */
  datatype Tail = Versioned(version: Version) | Versionless(eol: seq<Byte>)

  predicate TailOk(m: Method, t: Tail) {
    match t
    case Versioned(v) => VersionOk(m, v)
    case Versionless(eol) => m == M_GET && IsEol(eol)
  }

  function TailText(t: Tail): seq<Byte> {
    match t
    case Versioned(v) => [' '] + VersionText(v)
    case Versionless(eol) => eol
  }

  /** No version stands for the oldest one, 0.9. */
  function Major(t: Tail): nat {
    if t.Versioned? then Digit(t.version.major) else 0
  }

  function Minor(t: Tail): nat {
    if t.Versioned? then Digit(t.version.minor) else 9
  }

  lemma UrlOver(c: Parser, ch: Byte)
    requires c.errno == CHPE_OK && UrlState(c.state) && c.mthd == M_GET && (ch == CR || ch == LF)
    ensures Next(c, ch).errno == CHPE_OK <==> c.state >= S_REQ_SERVER
    ensures c.state >= S_REQ_SERVER ==>
              Next(c, ch) == c.(major := 0, minor := 9, state := if ch == CR then S_REQ_LINE_ALMOST_DONE else S_HEADER_FIELD_START)
    ensures Next(c, ch).errno == CHPE_OK ==> Events(c, ch) == []
    ensures Next(c, ch).state != S_HEADERS_DONE
  {
    assert Next(c, ch) == OnRequestLine(c, ch);
  }

  lemma UrlOverByte(s: Run, ch: Byte)
    requires InHead(s) && UrlState(s.p.state) && s.p.mthd == M_GET && (ch == CR || ch == LF)
    ensures Accepted(Step(s, ch)) <==> s.p.nread < MAX_HEADER_SIZE && s.p.state >= S_REQ_SERVER
    ensures Accepted(Step(s, ch)) ==>
              Step(s, ch) == s.(p := s.p.(major := 0, minor := 9, nread := s.p.nread + 1,
                                          state := if ch == CR then S_REQ_LINE_ALMOST_DONE else S_HEADER_FIELD_START))
  {
    hide Next, Events, Stops, Step;
    StepIs(s, ch);
    if s.p.nread < MAX_HEADER_SIZE {
      var c := s.p.(nread := s.p.nread + 1);
      UrlOver(c, ch);
      EmitNone(s.log);
      NoStop(c, ch);
    }
  }

  lemma AlmostDone(m: Method)
    ensures VersionNext(S_REQ_LINE_ALMOST_DONE, LF, m) == To(S_HEADER_FIELD_START)
    ensures forall p: Parser :: p.state == S_REQ_LINE_ALMOST_DONE && p.mthd == m ==> OnVersion(p, LF) == Go(p, S_HEADER_FIELD_START)
  {
  }

  /** The line end that stands for a version. */
  lemma VersionlessIsRead(s: Run, eol: seq<Byte>)
    requires InHead(s) && UrlState(s.p.state) && s.p.mthd == M_GET && IsEol(eol)
    ensures var t, n := Fold(s, eol), s.p.nread + |eol|;
            && (Accepted(t) <==> n <= MAX_HEADER_SIZE && s.p.state >= S_REQ_SERVER)
            && (Accepted(t) ==> t == s.(p := s.p.(state := S_HEADER_FIELD_START, nread := n, major := 0, minor := 9)))
  {
    hide Step, Fold, VersionNext, OnVersion;
    if eol == [LF] {
      FoldOne(s, LF);
      UrlOverByte(s, LF);
    } else {
      assert eol == [CR] + [LF];
      Prefix(s, [CR], [LF]);
      FoldOne(s, CR);
      UrlOverByte(s, CR);
      var u := Step(s, CR);
      FoldOne(u, LF);
      if Accepted(u) {
        AlmostDone(u.p.mthd);
        VersionByte(u, LF);
      }
    }
  }

  /** A target and what follows it. */
  lemma TailIsRead(s: Run, xs: seq<Byte>, t: Tail)
    requires InHead(s) && s.p.state == S_REQ_SPACES_BEFORE_URL && xs != [] && AllInner(xs) && TailOk(s.p.mthd, t)
    ensures var u, n := Fold(s, xs + TailText(t)), s.p.nread + |xs + TailText(t)|;
            && (Accepted(u) <==> n <= MAX_HEADER_SIZE && TargetOk(s.p.mthd, xs))
            && (Accepted(u) ==>
                  u == s.(p := s.p.(state := S_HEADER_FIELD_START, nread := n, major := Major(t), minor := Minor(t)),
                          log := Emit(s.log, Data(Url, xs))))
  {
    hide Step, Fold, VersionOk, VersionText, AllInner, Target, IsEol;
    match t
    case Versioned(v) =>
      Sequences.Assoc(xs, [' '], VersionText(v));
      Prefix(s, xs + [' '], VersionText(v));
      TargetPart(s, xs);
      var b := Fold(s, xs + [' ']);
      if Accepted(b) {
        VersionIsRead(b, v);
      }
    case Versionless(eol) =>
      Prefix(s, xs, eol);
      TargetIsRead(s, xs);
      var b := Fold(s, xs);
      if Accepted(b) {
        VersionlessIsRead(b, eol);
      }
  }

  // Whole heads.

  /** A request up to the end of its headers: any line ends may come in front, and
      more spaces than one behind the method. */
  datatype Head = Head(lead: seq<Byte>, mthd: Method, gap: seq<Byte>, target: seq<Byte>, tail: Tail, lines: seq<Line>,
                       eol: seq<Byte>)

  predicate HeadOk(h: Head) {
    && AllIdle(S_START_REQ, h.lead) && AllIdle(S_REQ_SPACES_BEFORE_URL, h.gap)
    && h.target != [] && AllInner(h.target) && TailOk(h.mthd, h.tail) && LinesOk(h.lines) && IsEol(h.eol)
  }

  /** The request line, with what comes in front of it. */
  function LineOf(h: Head): seq<Byte> {
    h.lead + ((MethodText(h.mthd) + [' ']) + (h.gap + (h.target + TailText(h.tail))))
  }

  function HeadText(h: Head): seq<Byte> { LineOf(h) + (LinesText(h.lines) + h.eol) }

  /** The callbacks of a request up to its last header. */
  function HeadLog(log: Log, h: Head): Log {
    LinesLog(Emit(Methods(Emit(log, Notified(MessageBegin)), |MethodString(h.mthd)|), Data(Url, h.target)), h.lines)
  }

  /** The fields in front of the headers. */
  function LineStart(p: Parser, h: Head): Parser {
    Opened(p, h.mthd, |MethodString(h.mthd)| + 1, S_HEADER_FIELD_START).(
      nread := p.nread + |LineOf(h)|, major := Major(h.tail), minor := Minor(h.tail))
  }

  /** The request line. */
  lemma RequestLineIsRead(s: Run, h: Head)
    requires InHead(s) && s.p.state == S_START_REQ && HeadOk(h)
    ensures var t := Fold(s, LineOf(h));
            && (Accepted(t) <==> LineStart(s.p, h).nread <= MAX_HEADER_SIZE && TargetOk(h.mthd, h.target))
            && (Accepted(t) ==>
                  t == s.(p := LineStart(s.p, h),
                          log := Emit(Methods(Emit(s.log, Notified(MessageBegin)), |MethodString(h.mthd)|), Data(Url, h.target))))
  {
    hide Step, Fold, AllIdle, AllInner, MethodString, TailOk, TailText, Methods, TargetOk, LinesOk, IsEol, Emit;
    var name, rest := MethodText(h.mthd), h.gap + (h.target + TailText(h.tail));
    MethodLength11(h.mthd);
    Prefix(s, h.lead, (name + [' ']) + rest);
    IdleIsRead(s, h.lead);
    var z := Fold(s, h.lead);
    if Accepted(z) {
      Prefix(z, name + [' '], rest);
      MethodIsRead(z, name);
      var a := Fold(z, name + [' ']);
      if Accepted(a) {
        SameMethod(a.p.mthd, h.mthd);
        Prefix(a, h.gap, h.target + TailText(h.tail));
        IdleIsRead(a, h.gap);
        var b := Fold(a, h.gap);
        if Accepted(b) {
          TailIsRead(b, h.target, h.tail);
        }
      }
    }
  }

  /** The fields in front of the empty line. */
  function Headed(p: Parser, h: Head): Parser
    requires LinesOk(h.lines)
  {
    Ended(LinesRead(LineStart(p, h), h.lines)).(state := S_HEADER_FIELD_START)
  }

  /** A head is accepted exactly if it fits, its target is one, its header lines are
      ones that can be taken, and they say how long the body is. It is then read as
      it was written: method, target, version, and every name and value in order. */
  lemma HeadIsRead(s: Run, h: Head)
    requires InHead(s) && s.p.state == S_START_REQ && HeadOk(h)
    ensures var t, q := Fold(s, HeadText(h)), Headed(s.p, h);
            && (Accepted(t)
                <==> s.p.nread + |HeadText(h)| <= MAX_HEADER_SIZE && TargetOk(h.mthd, h.target)
                     && BlockOk(s.p, h.lines) && EndOk(q))
            && (Accepted(t) ==>
                  && t == Run(BehindHead(q), EndLog(HeadLog(s.log, h), q), Upgrades(q), false)
                  && BlockDid(LineStart(s.p, h), q, h.lines)
                  && t.p.mthd == h.mthd && t.p.major == Major(h.tail) && t.p.minor == Minor(h.tail))
  {
    hide Step, Fold, TargetOk, LineOf, Methods, EndOk, BehindHead, EndLog, BlockDid, LineOk, Emit, TailOk, AllIdle, AllInner,
         LinesTaken, LinesRead, BlockOk;
    var line := LineOf(h);
    var p := LineStart(s.p, h);
    Prefix(s, line, LinesText(h.lines) + h.eol);
    RequestLineIsRead(s, h);
    BlockEffect(p, h.lines);
    SameBlock(s.p, p, h.lines);
    var a := Fold(s, line);
    if Accepted(a) {
      Prefix(a, LinesText(h.lines), h.eol);
      LinesAreRead(a, h.lines);
      var b := Fold(a, LinesText(h.lines));
      if Accepted(b) {
        LinesStay(p, h.lines);
        DidKeeps(p, b.p, h.lines);
        HeadEnds(b, h.eol);
        EndSame(Ended(b.p), S_HEADER_FIELD_START, b.p.nread);
      }
    }
  }

  lemma SameBlock(p: Parser, q: Parser, ls: seq<Line>)
    requires LinesOk(ls) && p.lenient == q.lenient
    ensures BlockOk(p, ls) == BlockOk(q, ls)
  {
    hide PrintableLine, Does, LengthOk, LineOk;
    forall k | 0 <= k < |ls| ensures PrintableLine(p, ls[k]) == PrintableLine(q, ls[k]) {
      PrintableSame(p, q, ls[k]);
    }
  }

  lemma DidKeeps(p: Parser, q: Parser, ls: seq<Line>)
    requires LinesOk(ls) && BlockDid(p, q, ls) && p.state == S_HEADER_FIELD_START
    ensures var e := Ended(q).(state := S_HEADER_FIELD_START);
            && !Ended(q).flags.trailing == !p.flags.trailing && BlockDid(p, e, ls) && Ended(q).nread == q.nread
            && BehindHead(e).mthd == p.mthd && BehindHead(e).major == p.major && BehindHead(e).minor == p.minor
  {
    hide HeaderFlags, Any, Stated, LineOk;
  }
}
