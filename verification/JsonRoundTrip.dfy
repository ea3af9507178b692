/** Reading undoes printing. */
module JsonRoundTrip {
  import opened JsonText
  import opened JsonModel
  import Sequences

  /** What may stand behind a value. */
  predicate Delimits(rest: string) {
    Terminated(rest) && (rest[0] == ',' || rest[0] == ']' || rest[0] == '}' || rest[0] == NUL)
  }

  /** Depth grows by two from a container to the next one inside it. */
  predicate Fits(nesting: nat, depth: nat) { nesting == 0 || depth + 2 * nesting - 1 <= MAX_DEPTH }

  /** A text that starts neither with white space nor with a closing bracket. */
  predicate Starts(t: string) { t != "" && !IsWs(t[0]) && t[0] != ']' && t[0] != '}' }

  lemma {:induction false} IntStarts(n: int)
    ensures Starts(IntText(n))
  {
    hide NatText, DigitsOf;
    var m := if n < 0 then -n else n;
    NatTextIs(m);
    assert n < 0 ==> IntText(n)[0] == '-';
  }

  lemma {:induction false} DumpStarts(w: WValue)
    ensures Starts(Dump(w))
  {
    hide IntText, Escape, DumpItems, DumpMembers;
    match w
    case Signed(n) => IntStarts(n);
    case Unsigned(n) => IntStarts(n);
    case WString(s) => assert Dump(w)[0] == '"';
    case WList(_) => assert Dump(w)[0] == '[';
    case WObject(_) => assert Dump(w)[0] == '{';
    case _ =>
  }

  lemma {:induction false} ItemsStart(w: WValue, i: nat)
    requires w.WList? && i < |w.items|
    ensures Starts(DumpItems(w, i))
  {
    DumpStarts(w.items[i]);
  }

  lemma {:induction false} MembersStart(w: WValue, i: nat)
    requires w.WObject? && i < |w.members|
    ensures Starts(DumpMembers(w, i))
  {
    assert Starts(DumpMember(w, i));
  }

  lemma {:induction false} NoWs(t: string, rest: string)
    requires Terminated(rest) && (if t == "" then !IsWs(rest[0]) else !IsWs(t[0]))
    ensures Terminated(t + rest) && !IsWs((t + rest)[0])
  {
    assert (t + rest)[|t + rest| - 1] == rest[|rest| - 1];
  }

  // Strings.

  lemma {:induction false} StringBack(s: string, rest: string)
    requires Terminated(rest)
    ensures var t := "\"" + Escape(s) + "\"" + rest;
            Terminated(t) && ParseString(t) == Good(s, |Escape(s)| + 2)
  {
    hide Escape, StringEnd, Decode, ParseString;
    var e := Escape(s);
    EscapeEnds(s, rest);
    DecodeEscape(s);
    assert "\"" + e + "\"" + rest == "\"" + (e + "\"" + rest);
    assert (e + "\"" + rest)[..|e|] == e;
    QuotedIs(e + "\"" + rest);
  }

  lemma QuotedIs(u: string)
    requires Terminated(u)
    ensures var t, end := "\"" + u, StringEnd(u);
            && Terminated(t)
            && (end.Some? ==> Raw(u[..end.value]) && ParseString(t) == Good(Decode(u[..end.value]), end.value + 2))
  {
    hide StringEnd, Decode, Raw;
    assert ("\"" + u)[1..] == u;
    if StringEnd(u).Some? {
      StringIsRaw(u);
    }
  }

  // Numbers.

  lemma {:induction false} DigitsEnd(ds: string, rest: string)
    requires Terminated(rest) && !IsNumberChar(rest[0])
    requires forall i :: 0 <= i < |ds| ==> '0' <= ds[i] <= '9'
    ensures Terminated(ds + rest) && NumberEnd(ds + rest, DIGITS) == Some(|ds|)
  {
    var t := ds + rest;
    assert t[|t| - 1] == rest[|rest| - 1];
    if ds == "" {
      assert t == rest;
    } else {
      DigitsEnd(ds[1..], rest);
      assert t[1..] == ds[1..] + rest;
    }
  }

  lemma {:induction false} EndStep(c: char, rest: string, state: nat)
    requires Terminated(rest) && state < INVALID && IsNumberChar(c)
    ensures Terminated([c] + rest)
    ensures NumberEnd([c] + rest, state)
            == var end := NumberEnd(rest, NextNumber(state, c));
               if end.None? then None else Some(1 + end.value)
  {
    assert ([c] + rest)[1..] == rest;
  }

  lemma NumberStops(rest: string)
    requires Terminated(rest) && !IsNumberChar(rest[0])
    ensures NumberEnd(rest, ZERO_FIRST) == Some(0)
  {
  }

  lemma {:induction false} NatBack(n: nat, state: nat, rest: string)
    requires Terminated(rest) && !IsNumberChar(rest[0])
    requires state == MINUS || state == AFTER_MINUS
    ensures var t := NatText(n) + rest;
            Terminated(t) && NumberEnd(t, state) == Some(|NatText(n)|)
  {
    hide NatText, DigitsOf, NumberEnd;
    var ds := NatText(n);
    NatTextIs(n);
    NumberStops(rest);
    var more := ds[1..];
    assert ds + rest == [ds[0]] + (more + rest);
    if n == 0 {
      assert more + rest == rest;
      EndStep('0', rest, state);
    } else {
      DigitsEnd(more, rest);
      EndStep(ds[0], more + rest, state);
    }
  }

  lemma {:induction false} NumberBack(n: int, rest: string, depth: nat)
    requires Delimits(rest)
    ensures var t := IntText(n) + rest;
            Terminated(t) && ParseValue(t, depth) == Good(Number(IntText(n)), |IntText(n)|)
  {
    hide NatText, DigitsOf, ParseValue;
    var text := IntText(n);
    var m := if n < 0 then -n else n;
    NatTextIs(m);
    assert n < 0 ==> text == ['-'] + NatText(m);
    assert n >= 0 ==> text == NatText(m);
    hide IntText;
    if n < 0 {
      NatBack(m, AFTER_MINUS, rest);
      EndStep('-', NatText(m) + rest, MINUS);
      Sequences.Assoc(['-'], NatText(m), rest);
    } else {
      NatBack(m, MINUS, rest);
    }
    Sequences.Drop(text, rest);
    NumberValue(text + rest, |text|, depth);
  }

  lemma {:induction false} NumberValue(t: string, end: nat, depth: nat)
    requires Terminated(t) && (t[0] == '-' || '0' <= t[0] <= '9')
    requires end <= |t| && NumberEnd(t, MINUS) == Some(end)
    ensures ParseValue(t, depth) == Good(Number(t[..end]), end)
  {
  }

  lemma {:induction false} WordBack(word: string, v: Value, rest: string, depth: nat)
    requires Terminated(rest)
    requires (word == "null" && v == Null) || (word == "true" && v == True) || (word == "false" && v == False)
    ensures Terminated(word + rest) && ParseValue(word + rest, depth) == Good(v, |word|)
  {
    var t := word + rest;
    assert t[|t| - 1] == rest[|rest| - 1];
    assert t[..|word|] == word && t[0] == word[0];
  }

  // Lists and objects.

  lemma Skipped(a: string, more: string)
    requires more != ""
    ensures (a + more)[|a| + 1..] == more[1..]
    ensures |more| > 1 ==> (a + more)[|a| + 1] == more[1]
  {
  }

  // The parser's view of a list and of an object: one item and what follows it.

  lemma {:induction false} ItemsStep(a: string, more: string, v: Parsed<Value>, depth: nat)
    requires Terminated(more) && Terminated(a + more) && a != ""
    requires v.Good? ==> v.n == |a|
    requires more[0] == ']' || (more[0] == ',' && !IsWs(more[1]))
    ensures ItemsFrom(a + more, v, depth)
            == if v.Bad? then Bad
               else if more[0] == ']' then Good([v.value], |a| + 1)
               else
                 var rest := ParseItems(more[1..], depth);
                 if rest.Bad? then Bad else Good([v.value] + rest.value, |a| + 1 + rest.n)
  {
    hide ParseItems, Skip;
    Sequences.Drop(a, more);
    Skipped(a, more);
  }

  lemma {:induction false} MembersStep(a: string, more: string, m: Parsed<(string, Value)>, depth: nat)
    requires Terminated(more) && Terminated(a + more) && a != ""
    requires m.Good? ==> m.n == |a|
    requires more[0] == '}' || (more[0] == ',' && !IsWs(more[1]))
    ensures MembersFrom(a + more, m, depth)
            == if m.Bad? then Bad
               else if more[0] == '}' then Good([m.value], |a| + 1)
               else
                 var rest := ParseMembers(more[1..], depth);
                 if rest.Bad? then Bad else Good([m.value] + rest.value, |a| + 1 + rest.n)
  {
    hide ParseMembers, Skip;
    Sequences.Drop(a, more);
    Skipped(a, more);
  }

  /** Reading back what a value is printed as, whatever may follow it: it works
      exactly as long as the containers in it are not too deep. */
  lemma {:induction false} ValueBack(w: WValue, rest: string, depth: nat)
    requires Delimits(rest)
    ensures Terminated(Dump(w) + rest)
    ensures ParseValue(Dump(w) + rest, depth)
            == if Fits(Nesting(w), depth) then Good(AsRead(w), |Dump(w)|) else Bad
    decreases w, Width(w) + 1
  {
    match w
    case WNull => WordBack("null", Null, rest, depth);
    case WFalse => WordBack("false", False, rest, depth);
    case WTrue => WordBack("true", True, rest, depth);
    case Signed(n) => NumberBack(n, rest, depth);
    case Unsigned(n) => NumberBack(n, rest, depth);
    case WString(s) => StringBack(s, rest);
    case WList(_) => ListBack(w, rest, depth);
    case WObject(_) => ObjectBack(w, rest, depth);
  }

  lemma {:induction false} ListBack(w: WValue, rest: string, depth: nat)
    requires Delimits(rest) && w.WList?
    ensures Terminated(Dump(w) + rest)
    ensures ParseValue(Dump(w) + rest, depth)
            == if Fits(Nesting(w), depth) then Good(AsRead(w), |Dump(w)|) else Bad
    decreases w, Width(w), 1
  {
    var items, close := DumpItems(w, 0), "]" + rest;
    assert Dump(w) + rest == ['['] + (items + close);
    if w.items != [] {
      ItemsStart(w, 0);
    }
    Bracketed('[', items, close);
    if w.items != [] {
      ItemsBack(w, 0, rest, depth + 1);
      assert AsRead(w).items[0..] == AsRead(w).items;
    }
    hide ParseItems, Skip;
  }

  lemma {:induction false} Bracketed(open: char, inside: string, close: string)
    requires Terminated(close) && open != NUL && !IsWs(open)
    requires if inside == "" then !IsWs(close[0]) else Starts(inside)
    ensures var t := [open] + (inside + close);
            && Terminated(t) && t[1..] == inside + close && Skip(t, 1) == 1
            && t[1] == if inside == "" then close[0] else inside[0]
  {
    Sequences.Drop(inside, close);
    var t := [open] + (inside + close);
    assert t[|t| - 1] == close[|close| - 1];
    assert t[1] == (inside + close)[0];
  }

  lemma {:induction false} ItemsBack(w: WValue, i: nat, rest: string, depth: nat)
    requires w.WList? && i < |w.items| && Terminated(rest)
    ensures var t := DumpItems(w, i) + ("]" + rest);
            && Terminated(t)
            && ParseItems(t, depth)
               == if Fits(NestingFrom(w, i), depth + 1) then Good(AsRead(w).items[i..], |DumpItems(w, i)| + 1) else Bad
    decreases w, Width(w) - i, 0
  {
    hide ItemsFrom, ParseValue;
    var x, close := w.items[i], "]" + rest;
    var a, v := Dump(x), AsRead(w).items;
    DumpStarts(x);
    if i + 1 == |w.items| {
      ValueBack(x, close, depth + 1);
      ItemsStep(a, close, ParseValue(a + close, depth + 1), depth);
      assert v[i..] == [v[i]];
    } else {
      var more := "," + (DumpItems(w, i + 1) + close);
      ItemsBack(w, i + 1, rest, depth);
      ItemsStart(w, i + 1);
      Bracketed(',', DumpItems(w, i + 1), close);
      ValueBack(x, more, depth + 1);
      ItemsStep(a, more, ParseValue(a + more, depth + 1), depth);
      Sequences.First(v, i);
      Regroup(a, DumpItems(w, i + 1), close);
    }
  }

  lemma Regroup(a: string, b: string, c: string)
    ensures a + "," + b + c == a + ("," + (b + c))
    ensures |a + "," + b| == |a| + 1 + |b|
  {
  }

  lemma {:induction false} ObjectBack(w: WValue, rest: string, depth: nat)
    requires Delimits(rest) && w.WObject?
    ensures Terminated(Dump(w) + rest)
    ensures ParseValue(Dump(w) + rest, depth)
            == if Fits(Nesting(w), depth) then Good(AsRead(w), |Dump(w)|) else Bad
    decreases w, Width(w), 1
  {
    var members, close := DumpMembers(w, 0), "}" + rest;
    assert Dump(w) + rest == ['{'] + (members + close);
    if w.members != [] {
      MembersStart(w, 0);
    }
    Bracketed('{', members, close);
    if w.members != [] {
      MembersBack(w, 0, rest, depth + 1);
      assert AsRead(w).members[0..] == AsRead(w).members;
    }
    hide ParseMembers, Skip;
  }

  lemma QuoteColon(key: string, value: string, rest: string)
    ensures "\"" + key + "\":" + value + rest == ("\"" + key + "\"") + (":" + (value + rest))
    ensures |"\"" + key + "\":" + value| == |key| + |value| + 3
  {
  }

  lemma {:induction false} MemberText(w: WValue, i: nat, rest: string)
    requires w.WObject? && i < |w.members|
    ensures var q := "\"" + Escape(w.members[i].0) + "\"";
            && DumpMember(w, i) + rest == q + (":" + (Dump(w.members[i].1) + rest))
            && |DumpMember(w, i)| == |q| + 1 + |Dump(w.members[i].1)|
  {
    hide Escape, Dump;
    QuoteColon(Escape(w.members[i].0), Dump(w.members[i].1), rest);
  }

  lemma {:induction false} MemberBack(w: WValue, i: nat, rest: string, depth: nat)
    requires w.WObject? && i < |w.members| && Delimits(rest)
    ensures var t := DumpMember(w, i) + rest;
            && Terminated(t) && DumpMember(w, i) != ""
            && ParseMember(t, depth)
               == if Fits(Nesting(w.members[i].1), depth + 1)
                  then Good((w.members[i].0, AsRead(w.members[i].1)), |DumpMember(w, i)|) else Bad
    decreases w, 0, 0
  {
    hide DumpMember, Escape, Dump, Nesting, AsRead, ParseValue, ParseString, MemberFrom;
    var k, x := w.members[i].0, w.members[i].1;
    var q, value := "\"" + Escape(k) + "\"", Dump(x) + rest;
    ValueBack(x, rest, depth + 1);
    DumpStarts(x);
    Bracketed(':', Dump(x), rest);
    StringBack(k, ":" + value);
    MemberText(w, i, rest);
    MemberStep(q, value, k, depth);
  }

  lemma {:induction false} MemberStep(q: string, value: string, k: string, depth: nat)
    requires q != "" && Terminated(value) && !IsWs(value[0]) && Terminated(q + (":" + value))
    ensures MemberFrom(q + (":" + value), Good(k, |q|), depth)
            == var v := ParseValue(value, depth + 1);
               if v.Bad? then Bad else Good((k, v.value), |q| + 1 + v.n)
  {
    hide ParseValue, Skip;
    Sequences.Drop(q, ":" + value);
    Skipped(q, ":" + value);
    assert (":" + value)[1..] == value;
  }

  lemma {:induction false} MembersBack(w: WValue, i: nat, rest: string, depth: nat)
    requires w.WObject? && i < |w.members| && Terminated(rest)
    ensures var t := DumpMembers(w, i) + ("}" + rest);
            && Terminated(t)
            && ParseMembers(t, depth)
               == if Fits(NestingFrom(w, i), depth + 1) then Good(AsRead(w).members[i..], |DumpMembers(w, i)| + 1) else Bad
    decreases w, Width(w) - i, 0
  {
    hide DumpMember, ParseMember, MembersFrom;
    var close := "}" + rest;
    var a, v := DumpMember(w, i), AsRead(w).members;
    if i + 1 == |w.members| {
      MemberBack(w, i, close, depth);
      MembersStep(a, close, ParseMember(a + close, depth), depth);
      assert v[i..] == [v[i]];
    } else {
      var more := "," + (DumpMembers(w, i + 1) + close);
      MembersBack(w, i + 1, rest, depth);
      MembersStart(w, i + 1);
      Bracketed(',', DumpMembers(w, i + 1), close);
      MemberBack(w, i, more, depth);
      MembersStep(a, more, ParseMember(a + more, depth), depth);
      Sequences.First(v, i);
      Regroup(a, DumpMembers(w, i + 1), close);
    }
  }

  /** For every value, the text it is printed as is read back as that value, to its
      last character, if at most 5000 containers are one inside the other, and refused
      if there are more. */
  lemma {:induction false} RoundTrip(w: WValue)
    ensures Terminated(Dump(w) + [NUL])
    ensures ParseValue(Dump(w) + [NUL], 0) == if Nesting(w) <= 5000 then Good(AsRead(w), |Dump(w)|) else Bad
    ensures ParseText(Dump(w) + [NUL]) == if Nesting(w) <= 5000 then Some(AsRead(w)) else None
  {
    var t := Dump(w) + [NUL];
    ValueBack(w, [NUL], 0);
    DumpStarts(w);
    NoWs(Dump(w), [NUL]);
    assert t[0..] == t;
    Sequences.Drop(Dump(w), [NUL]);
  }
}
