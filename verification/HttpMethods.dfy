/** The method of a request: the matcher that changes its guess from letter to
    letter reads exactly the names. */
module HttpMethods {
  import opened HttpTypes
  import opened HttpStep
  import opened HttpInvariant
  import opened HttpFold
  import opened HttpLines

  // The method.

  /** The guess after the letters of `text`, if they can begin a method name. */
  function Guess(text: string): Option<Method> {
    if text == "" then None
    else if |text| == 1 then FirstMethod(text[0])
    else
      match Guess(text[..|text| - 1])
      case None => None
      case Some(m) =>
        match MethodNext(m, |text| - 1, text[|text| - 1])
        case None => None
        case Some((next, over)) => if over then None else Some(next)
  }

  lemma FirstAgrees(ch: char)
    requires FirstMethod(ch).Some?
    ensures MethodString(FirstMethod(ch).value)[0] == ch
  {
  }

  lemma RedirectAgrees(m: Method, index: nat, ch: char)
    requires Redirect(m, index, ch).Some? && index <= |MethodString(m)|
    ensures var n := MethodString(Redirect(m, index, ch).value);
            index < |n| && n[index] == ch && MethodString(m)[..index] == n[..index]
  {
  }

  /** A guess has the letters read so far. */
  lemma {:induction false} GuessIsPrefix(text: string)
    requires Guess(text).Some?
    ensures text <= MethodString(Guess(text).value)
  {
    hide MethodString, Redirect, FirstMethod;
    var init, last := text[..|text| - 1], text[|text| - 1];
    if |text| == 1 {
      FirstAgrees(text[0]);
      assert text == [text[0]];
    } else {
      GuessIsPrefix(init);
      var m := Guess(init).value;
      assert text == init + [last];
      if last != CharAt(MethodString(m), |init|) {
        RedirectAgrees(m, |init|, last);
      }
    }
  }

  /** The method that a name is first taken for, and where it turns out not to
      be that one; a name taken for itself from its first letter has none. */
  function Origin(m: Method): Option<(Method, nat)> {
    match m
    case M_PUT => Some((M_POST, 1))
    case M_PATCH => Some((M_POST, 1))
    case M_PROPFIND => Some((M_POST, 1))
    case M_PROPPATCH => Some((M_PROPFIND, 4))
    case M_PURGE => Some((M_PUT, 2))
    case M_CHECKOUT => Some((M_CONNECT, 1))
    case M_COPY => Some((M_CONNECT, 2))
    case M_MOVE => Some((M_MKCOL, 1))
    case M_MERGE => Some((M_MKCOL, 1))
    case M_MSEARCH => Some((M_MKCOL, 1))
    case M_MKACTIVITY => Some((M_MKCOL, 2))
    case M_MKCALENDAR => Some((M_MKCOL, 3))
    case M_SEARCH => Some((M_SUBSCRIBE, 1))
    case M_SOURCE => Some((M_SUBSCRIBE, 1))
    case M_REBIND => Some((M_REPORT, 2))
    case M_LINK => Some((M_LOCK, 1))
    case M_UNSUBSCRIBE => Some((M_UNLOCK, 2))
    case M_UNBIND => Some((M_UNLOCK, 2))
    case M_UNLINK => Some((M_UNLOCK, 3))
    case _ => None
  }

  lemma OriginIs(m: Method)
    ensures Origin(m).None? ==> FirstMethod(MethodString(m)[0]) == Some(m)
    ensures Origin(m).Some? ==>
              var (from, k) := Origin(m).value;
              && 0 < k < |MethodString(m)| && k <= |MethodString(from)|
              && Redirect(from, k, MethodString(m)[k]) == Some(m)
              && (Origin(from).Some? ==> Origin(from).value.1 < k)
              && CharAt(MethodString(from), k) != MethodString(m)[k]
  {
  }

  predicate Capitals(text: string) {
    forall i :: 0 <= i < |text| ==> 'A' <= text[i] <= 'Z' || text[i] == '-'
  }

  lemma Letters(m: Method)
    ensures Capitals(MethodString(m))
  {
    hide MethodString;
    if m < M_PURGE {
      LettersBefore(m);
    } else if m < M_ACL {
      LettersBetween(m);
    } else {
      LettersBehind(m);
    }
  }

  lemma LettersBefore(m: Method)
    requires m < M_PURGE
    ensures Capitals(MethodString(m))
  {
  }

  lemma LettersBetween(m: Method)
    requires M_PURGE <= m < M_ACL
    ensures Capitals(MethodString(m))
  {
  }

  lemma LettersBehind(m: Method)
    requires M_ACL <= m
    ensures Capitals(MethodString(m))
  {
  }

  /** Once past the place where its origin is left, a name is taken for itself. */
  lemma {:induction false} GuessOf(m: Method, k: nat)
    requires (if Origin(m).Some? then Origin(m).value.1 else 0) < k <= |MethodString(m)|
    ensures Guess(MethodString(m)[..k]) == Some(m)
    decreases k
  {
    OriginIs(m);
    Letters(m);
    hide MethodString, Redirect, FirstMethod, Origin;
    var name := MethodString(m);
    var text := name[..k];
    assert text[..k - 1] == name[..k - 1] && text[k - 1] == name[k - 1];
    var split := if Origin(m).Some? then Origin(m).value.1 else 0;
    if k > split + 1 {
      GuessOf(m, k - 1);
    } else if Origin(m).Some? {
      var from := Origin(m).value.0;
      GuessOf(from, split);
      RedirectAgrees(from, split, name[split]);
    }
  }

  /** The name of a method is read as that method, and nothing else is: the
      letters before the space are exactly those of the method found. */
  lemma MethodNameIsRead(text: string, m: Method)
    ensures Guess(text) == Some(m) && CharAt(MethodString(m), |text|) == '\0' <==> text == MethodString(m)
  {
    if Guess(text) == Some(m) {
      GuessIsPrefix(text);
      Letters(m);
    }
    if text == MethodString(m) {
      OriginIs(m);
      GuessOf(m, |text|);
      assert text[..|text|] == text;
    }
  }

  // The method, read.

  function Methods(log: Log, n: nat): Log {
    if n == 0 then log else Emit(Methods(log, n - 1), Notified(OnMethod))
  }

  /** A new message forgets the old one. */
  function Opened(p: Parser, m: Method, n: nat, st: State): Parser {
    p.(flags := NO_FLAGS, usesTE := false, contentLength := ULLONG_MAX, mthd := m, index := n, state := st,
       nread := p.nread + n)
  }

  lemma MethodFirst(s: Run, ch: Byte)
    requires InHead(s) && s.p.state == S_START_REQ && ch != CR && ch != LF
    ensures Accepted(Step(s, ch)) <==> s.p.nread < MAX_HEADER_SIZE && FirstMethod(ch).Some?
    ensures Accepted(Step(s, ch)) ==>
              Step(s, ch) == s.(p := Opened(s.p, FirstMethod(ch).value, 1, S_REQ_METHOD),
                                log := Emit(s.log, Notified(MessageBegin)))
  {
    StepIs(s, ch);
    if s.p.nread < MAX_HEADER_SIZE {
      EmitOne(s.log, Notified(MessageBegin));
      FirstIsAlpha(ch);
      hide FirstMethod, IsAlpha, Emit, EmitAll;
      var c := s.p.(nread := s.p.nread + 1);
      assert Next(c, ch) == OnStartReq(c, ch);
    }
  }

  lemma FirstIsAlpha(ch: Byte)
    ensures FirstMethod(ch).Some? ==> IsAlpha(ch)
  {
  }

  lemma MethodMore(s: Run, ch: Byte)
    requires InHead(s) && s.p.state == S_REQ_METHOD && s.p.index < 31
    ensures Accepted(Step(s, ch)) <==> s.p.nread < MAX_HEADER_SIZE && MethodNext(s.p.mthd, s.p.index, ch).Some?
    ensures Accepted(Step(s, ch)) ==>
              var (m, over) := MethodNext(s.p.mthd, s.p.index, ch).value;
              Step(s, ch) == s.(p := s.p.(mthd := m, index := s.p.index + 1, nread := s.p.nread + 1,
                                          state := if over then S_REQ_SPACES_BEFORE_URL else S_REQ_METHOD),
                                log := Emit(s.log, Notified(OnMethod)))
  {
    StepIs(s, ch);
    if s.p.nread < MAX_HEADER_SIZE {
      EmitOne(s.log, Notified(OnMethod));
      var c := s.p.(nread := s.p.nread + 1);
      MethodByte(c, ch);
      hide Next, Events, Stops, Step, MethodNext, Emit, EmitAll;
      NoStop(c, ch);
    }
  }

  lemma MethodByte(c: Parser, ch: Byte)
    requires c.state == S_REQ_METHOD && c.errno == CHPE_OK && c.index < 31
    ensures match MethodNext(c.mthd, c.index, ch)
            case None => Next(c, ch).errno != CHPE_OK && Next(c, ch).state == c.state
            case Some((m, over)) =>
              && Next(c, ch) == c.(mthd := m, index := c.index + 1,
                                   state := if over then S_REQ_SPACES_BEFORE_URL else S_REQ_METHOD)
              && Events(c, ch) == [Notified(OnMethod)]
  {
    hide MethodNext;
    assert Next(c, ch) == OnReqMethod(c, ch);
  }

  lemma {:induction false} MethodLetters(s: Run, text: seq<Byte>)
    requires InHead(s) && s.p.state == S_START_REQ && text != [] && text[0] != CR && text[0] != LF && ' ' !in text
    ensures var t, n := Fold(s, text), |text|;
            && (Accepted(t) <==> s.p.nread + n <= MAX_HEADER_SIZE && Guess(text).Some?)
            && (Accepted(t) ==>
                  && n <= 11
                  && t == s.(p := Opened(s.p, Guess(text).value, n, S_REQ_METHOD),
                             log := Methods(Emit(s.log, Notified(MessageBegin)), n - 1)))
  {
    hide Step, Fold, MethodNext, FirstMethod;
    var init, last := text[..|text| - 1], text[|text| - 1];
    if |text| == 1 {
      assert text == [text[0]];
      FoldOne(s, text[0]);
      MethodFirst(s, text[0]);
    } else {
      MethodLetters(s, init);
      Last(s, init, last);
      assert init + [last] == text;
      if Accepted(Fold(s, init)) {
        MethodMore(Fold(s, init), last);
        OverIsSpace(Guess(init).value, |init|, last);
      }
    }
    if Guess(text).Some? {
      GuessIsPrefix(text);
    }
  }

  lemma OverIsSpace(m: Method, index: nat, ch: char)
    ensures ch != ' ' ==> MethodNext(m, index, ch).None? || !MethodNext(m, index, ch).value.1
    ensures ch == ' ' && index <= |MethodString(m)| ==>
              MethodNext(m, index, ch) == if CharAt(MethodString(m), index) == '\0' then Some((m, true)) else None
  {
    Letters(m);
    hide MethodString;
    if ch == ' ' && index < |MethodString(m)| {
      assert MethodString(m)[index] != '\0' && MethodString(m)[index] != ' ';
    }
  }

  /** A request line is accepted past its method exactly when the method is one of
      the names, and then that is the method. */
  lemma MethodIsRead(s: Run, text: seq<Byte>)
    requires InHead(s) && s.p.state == S_START_REQ && text != [] && text[0] != CR && text[0] != LF && ' ' !in text
    ensures var t, n := Fold(s, text + [' ']), |text| + 1;
            && (Accepted(t) <==> s.p.nread + n <= MAX_HEADER_SIZE && exists m: Method :: text == MethodString(m))
            && (Accepted(t) ==>
                  && text == MethodString(t.p.mthd)
                  && t == s.(p := Opened(s.p, t.p.mthd, n, S_REQ_SPACES_BEFORE_URL),
                             log := Methods(Emit(s.log, Notified(MessageBegin)), |text|)))
  {
    hide Step, Fold, MethodNext, MethodString, Guess;
    MethodLetters(s, text);
    Last(s, text, ' ');
    var mid := Fold(s, text);
    if Accepted(mid) {
      GuessIsPrefix(text);
      MethodMore(mid, ' ');
      OverIsSpace(mid.p.mthd, |text|, ' ');
      MethodNameIsRead(text, mid.p.mthd);
    }
    forall m: Method ensures text == MethodString(m) ==> Guess(text) == Some(m) && CharAt(MethodString(m), |text|) == '\0' {
      MethodNameIsRead(text, m);
    }
  }

  function MethodText(m: Method): (text: seq<Byte>)
    ensures text == MethodString(m)
  {
    Letters(m);
    assert forall c :: c in MethodString(m) ==> c as int < 256;
    MethodString(m)
  }

  lemma MethodLength11(m: Method)
    ensures 3 <= |MethodString(m)| <= 11 && MethodString(m)[0] != CR && MethodString(m)[0] != LF
    ensures ' ' !in MethodString(m)
  {
    Letters(m);
    hide MethodString;
  }

  lemma SameMethod(m: Method, n: Method)
    requires MethodString(m) == MethodString(n)
    ensures m == n
  {
    MethodNameIsRead(MethodString(m), m);
    MethodNameIsRead(MethodString(m), n);
  }
}
