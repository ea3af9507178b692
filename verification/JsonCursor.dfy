/** The reading functions seen from a place in a text that stays the same. */
module JsonCursor {
  import opened JsonText
  import opened JsonModel
  import Sequences

  ghost function StringIn(t: string, n: nat): (r: Parsed<string>)
    requires Terminated(t) && n < |t|
    ensures r.Good? ==> 1 < r.n < |t| - n
  {
    ParseString(t[n..])
  }

  ghost function WordIn(t: string, n: nat): (r: Parsed<Value>)
    requires Terminated(t) && n < |t|
    ensures r.Good? ==> 0 < r.n < |t| - n
  {
    ParseWord(t[n..])
  }

  ghost function NumberIn(t: string, n: nat): (r: Parsed<Value>)
    requires Terminated(t) && n < |t|
    ensures r.Good? ==> 0 < r.n < |t| - n
  {
    ParseNumber(t[n..])
  }

  ghost function ValueIn(t: string, n: nat, depth: nat): (r: Parsed<Value>)
    requires Terminated(t) && n < |t|
    ensures r.Good? ==> 0 < r.n < |t| - n
  {
    ParseValue(t[n..], depth)
  }

  ghost function ListIn(t: string, n: nat, depth: nat): (r: Parsed<Value>)
    requires Terminated(t) && n < |t|
    ensures r.Good? ==> 0 < r.n < |t| - n
  {
    ParseList(t[n..], depth)
  }

  ghost function ItemsIn(t: string, n: nat, depth: nat): (r: Parsed<seq<Value>>)
    requires Terminated(t) && n < |t|
    ensures r.Good? ==> 0 < r.n < |t| - n
  {
    ParseItems(t[n..], depth)
  }

  ghost function ObjectIn(t: string, n: nat, depth: nat): (r: Parsed<Value>)
    requires Terminated(t) && n < |t|
    ensures r.Good? ==> 0 < r.n < |t| - n
  {
    ParseObject(t[n..], depth)
  }

  ghost function MemberIn(t: string, n: nat, depth: nat): (r: Parsed<(string, Value)>)
    requires Terminated(t) && n < |t|
    ensures r.Good? ==> 0 < r.n < |t| - n
  {
    ParseMember(t[n..], depth)
  }

  ghost function MembersIn(t: string, n: nat, depth: nat): (r: Parsed<seq<(string, Value)>>)
    requires Terminated(t) && n < |t|
    ensures r.Good? ==> 0 < r.n < |t| - n
  {
    ParseMembers(t[n..], depth)
  }

  lemma {:induction false} SkipShift(t: string, k: nat, n: nat)
    requires Terminated(t) && k <= n < |t|
    ensures Terminated(t[k..]) && Skip(t[k..], n - k) + k == Skip(t, n)
    decreases |t| - n
  {
    if IsWs(t[n]) {
      SkipShift(t, k, n + 1);
    }
  }

  function Prepend<T>(acc: seq<T>, n: nat, v: Parsed<seq<T>>): Parsed<seq<T>> {
    if v.Bad? then Bad else Good(acc + v.value, n + v.n)
  }

  lemma {:induction false} PrependNone<T>(v: Parsed<seq<T>>)
    ensures Prepend([], 0, v) == v
  {
    if v.Good? {
      assert [] + v.value == v.value;
    }
  }

  lemma {:induction false} PrependMore<T>(acc: seq<T>, n: nat, x: T, k: nat, v: Parsed<seq<T>>)
    ensures Prepend(acc, n, Prepend([x], k, v)) == Prepend(acc + [x], n + k, v)
  {
    if v.Good? {
      Sequences.Assoc(acc, [x], v.value);
    }
  }

  lemma {:induction false} ValueIs(t: string, n: nat, depth: nat)
    requires Terminated(t) && n < |t|
    ensures ValueIn(t, n, depth)
            == if t[n] == '[' then ListIn(t, n, depth + 1)
               else if t[n] == '{' then ObjectIn(t, n, depth + 1)
               else if t[n] == '"' then
                 var s := StringIn(t, n);
                 if s.Bad? then Bad else Good(String(s.value), s.n)
               else if t[n] == 't' || t[n] == 'f' || t[n] == 'n' then WordIn(t, n)
               else NumberIn(t, n)
  {
    hide ParseList, ParseObject, ParseString, ParseWord, ParseNumber;
  }

  lemma {:induction false} WordIs(t: string, n: nat)
    requires Terminated(t) && n < |t| && (t[n] == 't' || t[n] == 'f' || t[n] == 'n')
    ensures WordIn(t, n)
            == if t[n] == 't' then
                 (if t[n + 1] == 'r' && t[n + 2] == 'u' && t[n + 3] == 'e' then Good(True, 4) else Bad)
               else if t[n] == 'f' then
                 (if t[n + 1] == 'a' && t[n + 2] == 'l' && t[n + 3] == 's' && t[n + 4] == 'e' then Good(False, 5)
                  else Bad)
               else (if t[n + 1] == 'u' && t[n + 2] == 'l' && t[n + 3] == 'l' then Good(Null, 4) else Bad)
  {
    var u := t[n..];
    if |u| >= 4 {
      assert u[..4] == [u[0], u[1], u[2], u[3]];
    }
    if |u| >= 5 {
      assert u[..5] == [u[0], u[1], u[2], u[3], u[4]];
    }
  }

  lemma {:induction false} ListIs(t: string, n: nat, depth: nat)
    requires Terminated(t) && n < |t|
    ensures ListIn(t, n, depth)
            == if t[n] != '[' || depth > MAX_DEPTH then Bad
               else
                 var w := Skip(t, n + 1);
                 if t[w] == ']' then Good(List([]), w + 1 - n)
                 else
                   var items := ItemsIn(t, w, depth);
                   if items.Bad? then Bad else Good(List(items.value), w - n + items.n)
  {
    hide ParseItems, Skip;
    if t[n] == '[' {
      SkipShift(t, n, n + 1);
      var w := Skip(t, n + 1);
      assert t[n..][w - n..] == t[w..];
    }
  }

  lemma {:induction false} ObjectIs(t: string, n: nat, depth: nat)
    requires Terminated(t) && n < |t|
    ensures ObjectIn(t, n, depth)
            == if t[n] != '{' || depth > MAX_DEPTH then Bad
               else
                 var w := Skip(t, n + 1);
                 if t[w] == '}' then Good(Object([]), w + 1 - n)
                 else
                   var members := MembersIn(t, w, depth);
                   if members.Bad? then Bad else Good(Object(members.value), w - n + members.n)
  {
    hide ParseMembers, Skip;
    if t[n] == '{' {
      SkipShift(t, n, n + 1);
      var w := Skip(t, n + 1);
      assert t[n..][w - n..] == t[w..];
    }
  }

  lemma {:induction false} ItemsAre(t: string, n: nat, depth: nat)
    requires Terminated(t) && n < |t|
    ensures var v := ValueIn(t, n, depth + 1);
            ItemsIn(t, n, depth)
            == if v.Bad? then Bad
               else
                 var e := Skip(t, n + v.n);
                 if t[e] == ']' then Good([v.value], e + 1 - n)
                 else if t[e] != ',' then Bad
                 else Prepend([v.value], Skip(t, e + 1) - n, ItemsIn(t, Skip(t, e + 1), depth))
  {
    hide ParseValue, ItemsFrom, Skip;
    var u, v := t[n..], ValueIn(t, n, depth + 1);
    assert ParseItems(u, depth) == ItemsFrom(u, v, depth);
    hide ParseItems;
    ItemsFromAt(t, n, v, depth);
  }

  lemma {:induction false} ItemsFromAt(t: string, n: nat, v: Parsed<Value>, depth: nat)
    requires Terminated(t) && n < |t| && (v.Good? ==> 0 < v.n < |t| - n)
    ensures ItemsFrom(t[n..], v, depth)
            == if v.Bad? then Bad
               else
                 var e := Skip(t, n + v.n);
                 if t[e] == ']' then Good([v.value], e + 1 - n)
                 else if t[e] != ',' then Bad
                 else Prepend([v.value], Skip(t, e + 1) - n, ParseItems(t[Skip(t, e + 1)..], depth))
  {
    hide ParseItems, Skip, IsWs;
    if v.Good? {
      var u, e := t[n..], Skip(t, n + v.n);
      SkipShift(t, n, n + v.n);
      assert Skip(u, v.n) == e - n && u[e - n] == t[e];
      if t[e] == ',' {
        var w := Skip(t, e + 1);
        SkipShift(t, n, e + 1);
        assert Skip(u, e - n + 1) == w - n && u[w - n..] == t[w..];
      }
    }
  }

  /** One turn of the loop over items that began at `p`, at place `n`. */
  lemma {:induction false} ItemsStep(t: string, p: nat, n: nat, acc: seq<Value>, depth: nat)
    requires Terminated(t) && p <= n < |t|
    requires ItemsIn(t, p, depth) == Prepend(acc, n - p, ItemsIn(t, n, depth))
    ensures var v := ValueIn(t, n, depth + 1);
            if v.Bad? then ItemsIn(t, p, depth).Bad?
            else
              var e := Skip(t, n + v.n);
              if t[e] == ']' then ItemsIn(t, p, depth) == Good(acc + [v.value], e + 1 - p)
              else if t[e] != ',' then ItemsIn(t, p, depth).Bad?
              else
                ItemsIn(t, p, depth)
                == Prepend(acc + [v.value], Skip(t, e + 1) - p, ItemsIn(t, Skip(t, e + 1), depth))
  {
    ItemsAre(t, n, depth);
    hide ItemsIn, ValueIn, Skip;
    var v := ValueIn(t, n, depth + 1);
    if v.Good? {
      var e := Skip(t, n + v.n);
      if t[e] == ',' {
        PrependMore(acc, n - p, v.value, Skip(t, e + 1) - n, ItemsIn(t, Skip(t, e + 1), depth));
      }
    }
  }

  lemma {:induction false} MemberIs(t: string, n: nat, depth: nat)
    requires Terminated(t) && n < |t|
    ensures var key := StringIn(t, n);
            MemberIn(t, n, depth)
            == if key.Bad? then Bad
               else
                 var c := Skip(t, n + key.n);
                 if t[c] != ':' then Bad
                 else
                   var w := Skip(t, c + 1);
                   var v := ValueIn(t, w, depth + 1);
                   if v.Bad? then Bad else Good((key.value, v.value), w - n + v.n)
  {
    hide ParseString, MemberFrom, Skip;
    var u, key := t[n..], StringIn(t, n);
    assert ParseMember(u, depth) == MemberFrom(u, key, depth);
    hide ParseMember;
    MemberFromAt(t, n, key, depth);
  }

  lemma {:induction false} MemberFromAt(t: string, n: nat, key: Parsed<string>, depth: nat)
    requires Terminated(t) && n < |t| && (key.Good? ==> 0 < key.n < |t| - n)
    ensures MemberFrom(t[n..], key, depth)
            == if key.Bad? then Bad
               else
                 var c := Skip(t, n + key.n);
                 if t[c] != ':' then Bad
                 else
                   var w := Skip(t, c + 1);
                   var v := ParseValue(t[w..], depth + 1);
                   if v.Bad? then Bad else Good((key.value, v.value), w - n + v.n)
  {
    hide ParseValue, Skip;
    if key.Good? {
      var u, c := t[n..], Skip(t, n + key.n);
      SkipShift(t, n, n + key.n);
      assert u[c - n] == t[c];
      if t[c] == ':' {
        SkipShift(t, n, c + 1);
        assert u[Skip(t, c + 1) - n..] == t[Skip(t, c + 1)..];
      }
    }
  }

  lemma {:induction false} MembersAre(t: string, n: nat, depth: nat)
    requires Terminated(t) && n < |t|
    ensures var m := MemberIn(t, n, depth);
            MembersIn(t, n, depth)
            == if m.Bad? then Bad
               else
                 var e := Skip(t, n + m.n);
                 if t[e] == '}' then Good([m.value], e + 1 - n)
                 else if t[e] != ',' then Bad
                 else Prepend([m.value], Skip(t, e + 1) - n, MembersIn(t, Skip(t, e + 1), depth))
  {
    hide ParseMember, MembersFrom, Skip;
    var u, m := t[n..], MemberIn(t, n, depth);
    assert ParseMembers(u, depth) == MembersFrom(u, m, depth);
    hide ParseMembers;
    MembersFromAt(t, n, m, depth);
  }

  lemma {:induction false} MembersFromAt(t: string, n: nat, m: Parsed<(string, Value)>, depth: nat)
    requires Terminated(t) && n < |t| && (m.Good? ==> 0 < m.n < |t| - n)
    ensures MembersFrom(t[n..], m, depth)
            == if m.Bad? then Bad
               else
                 var e := Skip(t, n + m.n);
                 if t[e] == '}' then Good([m.value], e + 1 - n)
                 else if t[e] != ',' then Bad
                 else Prepend([m.value], Skip(t, e + 1) - n, ParseMembers(t[Skip(t, e + 1)..], depth))
  {
    hide ParseMembers, Skip, IsWs;
    if m.Good? {
      var u, e := t[n..], Skip(t, n + m.n);
      SkipShift(t, n, n + m.n);
      assert Skip(u, m.n) == e - n && u[e - n] == t[e];
      if t[e] == ',' {
        var w := Skip(t, e + 1);
        SkipShift(t, n, e + 1);
        assert Skip(u, e - n + 1) == w - n && u[w - n..] == t[w..];
      }
    }
  }

  /** One turn of the loop over members that began at `p`, at place `n`. */
  lemma {:induction false} MembersStep(t: string, p: nat, n: nat, acc: seq<(string, Value)>, depth: nat)
    requires Terminated(t) && p <= n < |t|
    requires MembersIn(t, p, depth) == Prepend(acc, n - p, MembersIn(t, n, depth))
    ensures var m := MemberIn(t, n, depth);
            if m.Bad? then MembersIn(t, p, depth).Bad?
            else
              var e := Skip(t, n + m.n);
              if t[e] == '}' then MembersIn(t, p, depth) == Good(acc + [m.value], e + 1 - p)
              else if t[e] != ',' then MembersIn(t, p, depth).Bad?
              else
                MembersIn(t, p, depth)
                == Prepend(acc + [m.value], Skip(t, e + 1) - p, MembersIn(t, Skip(t, e + 1), depth))
  {
    MembersAre(t, n, depth);
    hide MembersIn, MemberIn, Skip;
    var m := MemberIn(t, n, depth);
    if m.Good? {
      var e := Skip(t, n + m.n);
      if t[e] == ',' {
        PrependMore(acc, n - p, m.value, Skip(t, e + 1) - n, MembersIn(t, Skip(t, e + 1), depth));
      }
    }
  }

  // Inside strings and numbers.

  function Offset(end: Option<nat>, n: nat): Option<nat> {
    if end.None? then None else Some(end.value + n)
  }

  /** Where the closing quote is, if the inside of a string goes on at `n`. */
  ghost function QuoteIn(t: string, n: nat): (end: Option<nat>)
    requires Terminated(t) && n < |t|
    ensures end.Some? ==> n <= end.value < |t| - 1
  {
    Offset(StringEnd(t[n..]), n)
  }

  ghost predicate UnitIn(t: string, n: nat)
    requires n <= |t|
  {
    UnitOk(t[n..])
  }

  ghost function UnitEnd(t: string, n: nat): (m: nat)
    requires n <= |t| && UnitIn(t, n)
    ensures n < m <= |t| && (t[n] != '\\' ==> m == n + 1)
  {
    n + UnitLength(t[n..])
  }

  /** One step of the search for the end of a string. */
  lemma {:induction false} QuoteStep(t: string, n: nat)
    requires Terminated(t) && n < |t|
    ensures QuoteIn(t, n)
            == if t[n] == '"' then Some(n)
               else if t[n] == NUL || !UnitIn(t, n) then None
               else if UnitEnd(t, n) < |t| then QuoteIn(t, UnitEnd(t, n)) else None
    ensures t[n] != NUL && UnitIn(t, n) ==> UnitEnd(t, n) < |t|
  {
    var u := t[n..];
    if t[n] != '"' && t[n] != NUL && UnitOk(u) {
      assert u[UnitLength(u)..] == t[UnitEnd(t, n)..];
    }
  }

  lemma {:induction false} UnitIs(t: string, n: nat)
    requires Terminated(t) && n < |t| && t[n] != NUL
    ensures t[n] != '\\' ==> UnitIn(t, n)
    ensures t[n] == '\\' && t[n + 1] != 'u' ==>
              (UnitIn(t, n) <==> IsSimpleEscape(t[n + 1])) && (UnitIn(t, n) ==> UnitEnd(t, n) == n + 2)
    ensures t[n] == '\\' && t[n + 1] == 'u' ==>
              && (UnitIn(t, n) <==> IsHex(t[n + 2]) && IsHex(t[n + 3]) && IsHex(t[n + 4]) && IsHex(t[n + 5]))
              && (UnitIn(t, n) ==> UnitEnd(t, n) == n + 6)
  {
  }

  lemma {:induction false} LiteralIs(t: string, n: nat)
    requires Terminated(t) && n < |t| && t[n] == '"' && QuoteIn(t, n + 1).Some?
    ensures var e := QuoteIn(t, n + 1).value;
            && Raw(t[n + 1..e]) && ('\\' !in t[n + 1..e] ==> Decode(t[n + 1..e]) == t[n + 1..e])
            && StringIn(t, n) == Good(Decode(t[n + 1..e]), e + 1 - n)
  {
    var u := t[n..];
    assert u[1..] == t[n + 1..];
    StringIsRaw(t[n + 1..]);
    var e := QuoteIn(t, n + 1).value;
    assert u[1..][..e - n - 1] == t[n + 1..e];
    if '\\' !in t[n + 1..e] {
      DecodePlain(t[n + 1..e]);
    }
  }

  lemma {:induction false} NoLiteral(t: string, n: nat)
    requires Terminated(t) && n < |t| && (t[n] != '"' || QuoteIn(t, n + 1).None?)
    ensures StringIn(t, n).Bad?
  {
    var u := t[n..];
    if t[n] == '"' {
      assert u[1..] == t[n + 1..];
    }
  }

  /** Where the number goes to that is in a state at `n`. */
  ghost function NumberTo(t: string, n: nat, state: nat): (end: Option<nat>)
    requires Terminated(t) && n < |t| && state <= INVALID
    ensures end.Some? ==> n <= end.value < |t|
  {
    Offset(NumberEnd(t[n..], state), n)
  }

  /** One step of the number scanner. */
  lemma {:induction false} NumberStep(t: string, n: nat, state: nat)
    requires Terminated(t) && n < |t| && state < INVALID
    ensures IsNumberChar(t[n]) ==> n + 1 < |t|
    ensures NumberTo(t, n, state)
            == if !IsNumberChar(t[n]) then (if EndsNumber(state) then Some(n) else None)
               else NumberTo(t, n + 1, NextNumber(state, t[n]))
    ensures '1' <= t[n] <= '9' ==>
              var s := NextNumber(state, t[n]);
              s == DIGITS || s == AFTER_POINT || s == AFTER_E || s == INVALID
  {
    assert t[n..][1..] == t[n + 1..];
  }

  lemma {:induction false} DigitStays(t: string, n: nat, state: nat)
    requires Terminated(t) && n < |t| && '0' <= t[n] <= '9'
    requires state == DIGITS || state == AFTER_POINT || state == AFTER_E || state == INVALID
    ensures n + 1 < |t| && NumberTo(t, n, state) == NumberTo(t, n + 1, state)
  {
    assert t[n..][1..] == t[n + 1..];
    assert NextNumber(DIGITS, t[n]) == DIGITS && NextNumber(AFTER_POINT, t[n]) == AFTER_POINT;
    assert NextNumber(AFTER_E, t[n]) == AFTER_E;
  }

  lemma {:induction false} NumberIs(t: string, n: nat)
    requires Terminated(t) && n < |t|
    ensures NumberIn(t, n)
            == var end := NumberTo(t, n, MINUS);
               if end.None? then Bad else Good(Number(t[n..end.value]), end.value - n)
    ensures NumberTo(t, n, INVALID).None?
  {
    hide NextNumber;
    var end := NumberEnd(t[n..], MINUS);
    if end.Some? {
      assert t[n..][..end.value] == t[n..n + end.value];
    }
  }
}
