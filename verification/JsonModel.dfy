/** JSON values, the text a value is printed as, and what a text is read as. */
module JsonModel {
  import opened JsonText
  import Sequences

  const MAX_DEPTH: nat := 10000

  /** A value as it is read; a number is kept as its text. */
  datatype Value =
    | Null | False | True
    | Number(text: string)
    | String(s: string)
    | List(items: seq<Value>)
    | Object(members: seq<(string, Value)>)

  type Int64 = n: int | -0x8000_0000_0000_0000 <= n < 0x8000_0000_0000_0000
  type UInt64 = n: int | 0 <= n < 0x1_0000_0000_0000_0000

  /** A value to be printed. */
  datatype WValue =
    | WNull | WFalse | WTrue
    | Signed(si: Int64)
    | Unsigned(ui: UInt64)
    | WString(s: string)
    | WList(items: seq<WValue>)
    | WObject(members: seq<(string, WValue)>)

  // Reading. A text ends with a NUL, and nothing reads past it.

  datatype Parsed<+T> = Bad | Good(value: T, n: nat)

  predicate IsWs(c: char) { c == ' ' || c == '\t' || c == '\r' || c == '\n' }

  /** The first place from `n` on without white space. */
  function Skip(t: string, n: nat): (i: nat)
    requires Terminated(t) && n < |t|
    ensures n <= i < |t| && !IsWs(t[i]) && (!IsWs(t[n]) ==> i == n)
    decreases |t| - n
  {
    if IsWs(t[n]) then Skip(t, n + 1) else n
  }

  // The states of the number scanner; the one with number 5, right behind the letter of
  // an exponent, needs no name.

  const MINUS: nat := 0
  const AFTER_MINUS: nat := 1
  const ZERO_FIRST: nat := 2
  const DIGITS: nat := 3
  const AFTER_POINT: nat := 4
  const AFTER_E: nat := 6
  const INVALID: nat := 7

  predicate IsNumberChar(c: char) {
    '0' <= c <= '9' || c == '.' || c == '-' || c == '+' || c == 'e' || c == 'E'
  }

  function NextNumber(state: nat, c: char): (s: nat)
    requires state < INVALID && IsNumberChar(c)
    ensures s <= INVALID
  {
    if c == '0' then [2, 2, 7, 3, 4, 6, 6][state]
    else if '1' <= c <= '9' then [3, 3, 7, 3, 4, 6, 6][state]
    else if c == '.' then [7, 7, 4, 4, 7, 7, 7][state]
    else if c == '-' then [1, 7, 7, 7, 7, 6, 7][state]
    else if c == '+' then [7, 7, 7, 7, 7, 6, 7][state]
    else [7, 7, 7, 5, 5, 7, 7][state]
  }

  predicate EndsNumber(state: nat) {
    state == ZERO_FIRST || state == DIGITS || state == AFTER_POINT || state == AFTER_E
  }

  /** Where the number at the front of a text ends. */
  function NumberEnd(t: string, state: nat): (end: Option<nat>)
    requires Terminated(t) && state <= INVALID
    ensures end.Some? ==> end.value < |t| && (state == MINUS ==> end.value > 0)
  {
    if state == INVALID then None
    else if !IsNumberChar(t[0]) then (if EndsNumber(state) then Some(0) else None)
    else
      var end := NumberEnd(t[1..], NextNumber(state, t[0]));
      if end.None? then None else Some(1 + end.value)
  }

  predicate StartsWith(t: string, word: string) { |word| <= |t| && t[..|word|] == word }

  function ParseString(t: string): (r: Parsed<string>)
    requires Terminated(t)
    ensures r.Good? ==> 1 < r.n < |t|
  {
    if t[0] != '"' then Bad
    else
      var end := StringEnd(t[1..]);
      if end.None? then Bad
      else
        StringIsRaw(t[1..]);
        Good(Decode(t[1..][..end.value]), end.value + 2)
  }

  function ParseValue(t: string, depth: nat): (r: Parsed<Value>)
    requires Terminated(t)
    ensures r.Good? ==> 0 < r.n < |t|
    decreases |t|, 2
  {
    if t[0] == '[' then ParseList(t, depth + 1)
    else if t[0] == '{' then ParseObject(t, depth + 1)
    else if t[0] == '"' then
      var s := ParseString(t);
      if s.Bad? then Bad else Good(String(s.value), s.n)
    else if t[0] == 't' || t[0] == 'f' || t[0] == 'n' then ParseWord(t)
    else ParseNumber(t)
  }

  function ParseWord(t: string): (r: Parsed<Value>)
    requires Terminated(t)
    ensures r.Good? ==> 0 < r.n < |t|
  {
    if StartsWith(t, "true") then Good(True, 4)
    else if StartsWith(t, "false") then Good(False, 5)
    else if StartsWith(t, "null") then Good(Null, 4)
    else Bad
  }

  function ParseNumber(t: string): (r: Parsed<Value>)
    requires Terminated(t)
    ensures r.Good? ==> 0 < r.n < |t|
  {
    var end := NumberEnd(t, MINUS);
    if end.None? then Bad else Good(Number(t[..end.value]), end.value)
  }

  function ParseList(t: string, depth: nat): (r: Parsed<Value>)
    requires Terminated(t)
    ensures r.Good? ==> 0 < r.n < |t|
    decreases |t|, 1
  {
    if t[0] != '[' || depth > MAX_DEPTH then Bad
    else
      var w := Skip(t, 1);
      if t[w] == ']' then Good(List([]), w + 1)
      else
        var items := ParseItems(t[w..], depth);
        if items.Bad? then Bad else Good(List(items.value), w + items.n)
  }

  /** The rest of a list from an item on, with the closing bracket. */
  function ParseItems(t: string, depth: nat): (r: Parsed<seq<Value>>)
    requires Terminated(t)
    ensures r.Good? ==> 0 < r.n < |t|
    decreases |t|, 3
  {
    ItemsFrom(t, ParseValue(t, depth + 1), depth)
  }

  /** The rest of a list behind the item read first. */
  function ItemsFrom(t: string, v: Parsed<Value>, depth: nat): (r: Parsed<seq<Value>>)
    requires Terminated(t) && (v.Good? ==> 0 < v.n < |t|)
    ensures r.Good? ==> 0 < r.n < |t|
    decreases |t|, 0
  {
    if v.Bad? then Bad
    else
      var e := Skip(t, v.n);
      if t[e] == ']' then Good([v.value], e + 1)
      else if t[e] != ',' then Bad
      else
        var w := Skip(t, e + 1);
        var rest := ParseItems(t[w..], depth);
        if rest.Bad? then Bad else Good([v.value] + rest.value, w + rest.n)
  }

  function ParseObject(t: string, depth: nat): (r: Parsed<Value>)
    requires Terminated(t)
    ensures r.Good? ==> 0 < r.n < |t|
    decreases |t|, 1
  {
    if t[0] != '{' || depth > MAX_DEPTH then Bad
    else
      var w := Skip(t, 1);
      if t[w] == '}' then Good(Object([]), w + 1)
      else
        var members := ParseMembers(t[w..], depth);
        if members.Bad? then Bad else Good(Object(members.value), w + members.n)
  }

  /** A key, the colon behind it and the value. */
  function ParseMember(t: string, depth: nat): (r: Parsed<(string, Value)>)
    requires Terminated(t)
    ensures r.Good? ==> 0 < r.n < |t|
    decreases |t|, 3
  {
    MemberFrom(t, ParseString(t), depth)
  }

  function MemberFrom(t: string, key: Parsed<string>, depth: nat): (r: Parsed<(string, Value)>)
    requires Terminated(t) && (key.Good? ==> 0 < key.n < |t|)
    ensures r.Good? ==> 0 < r.n < |t|
    decreases |t|, 0
  {
    if key.Bad? then Bad
    else
      var c := Skip(t, key.n);
      if t[c] != ':' then Bad
      else
        var w := Skip(t, c + 1);
        var v := ParseValue(t[w..], depth + 1);
        if v.Bad? then Bad else Good((key.value, v.value), w + v.n)
  }

  function ParseMembers(t: string, depth: nat): (r: Parsed<seq<(string, Value)>>)
    requires Terminated(t)
    ensures r.Good? ==> 0 < r.n < |t|
    decreases |t|, 4
  {
    MembersFrom(t, ParseMember(t, depth), depth)
  }

  function MembersFrom(t: string, m: Parsed<(string, Value)>, depth: nat): (r: Parsed<seq<(string, Value)>>)
    requires Terminated(t) && (m.Good? ==> 0 < m.n < |t|)
    ensures r.Good? ==> 0 < r.n < |t|
    decreases |t|, 0
  {
    if m.Bad? then Bad
    else
      var e := Skip(t, m.n);
      if t[e] == '}' then Good([m.value], e + 1)
      else if t[e] != ',' then Bad
      else
        var w := Skip(t, e + 1);
        var rest := ParseMembers(t[w..], depth);
        if rest.Bad? then Bad else Good([m.value] + rest.value, w + rest.n)
  }

  /** A whole text: white space, one value, white space, and then the NUL. */
  function ParseText(t: string): Option<Value>
    requires Terminated(t)
  {
    var w := Skip(t, 0);
    var v := ParseValue(t[w..], 0);
    if v.Bad? then None
    else
      var e := Skip(t, w + v.n);
      if t[e] == NUL then Some(v.value) else None
  }

  // Printing.

  function DigitChar(d: nat): char
    requires d < 10
  {
    '0' + d as char
  }

  function NatText(n: nat): string {
    (if n < 10 then "" else NatText(n / 10)) + [DigitChar(n % 10)]
  }

  function IntText(n: int): string {
    if n < 0 then "-" + NatText(-n) else NatText(n)
  }

  function Width(w: WValue): nat {
    if w.WList? then |w.items| else if w.WObject? then |w.members| else 0
  }

  function Dump(w: WValue): string
    decreases w, Width(w) + 1
  {
    match w
    case WNull => "null"
    case WFalse => "false"
    case WTrue => "true"
    case Signed(n) => IntText(n)
    case Unsigned(n) => IntText(n)
    case WString(s) => "\"" + Escape(s) + "\""
    case WList(items) => "[" + DumpItems(w, 0) + "]"
    case WObject(members) => "{" + DumpMembers(w, 0) + "}"
  }

  /** The items of a list from number `i` on, with commas between them. */
  function DumpItems(w: WValue, i: nat): string
    requires w.WList? && i <= |w.items|
    decreases w, |w.items| - i
  {
    if i == |w.items| then ""
    else if i + 1 == |w.items| then Dump(w.items[i])
    else Dump(w.items[i]) + "," + DumpItems(w, i + 1)
  }

  function DumpMember(w: WValue, i: nat): string
    requires w.WObject? && i < |w.members|
    decreases w, 0
  {
    "\"" + Escape(w.members[i].0) + "\":" + Dump(w.members[i].1)
  }

  function DumpMembers(w: WValue, i: nat): string
    requires w.WObject? && i <= |w.members|
    decreases w, |w.members| - i
  {
    if i == |w.members| then ""
    else if i + 1 == |w.members| then DumpMember(w, i)
    else DumpMember(w, i) + "," + DumpMembers(w, i + 1)
  }

  /** The value that is read back. */
  function AsRead(w: WValue): Value {
    match w
    case WNull => Null
    case WFalse => False
    case WTrue => True
    case Signed(n) => Number(IntText(n))
    case Unsigned(n) => Number(IntText(n))
    case WString(s) => String(s)
    case WList(items) => List(seq(|items|, i requires 0 <= i < |items| => AsRead(items[i])))
    case WObject(members) =>
      Object(seq(|members|, i requires 0 <= i < |members| => (members[i].0, AsRead(members[i].1))))
  }

  function Max(a: nat, b: nat): nat { if a < b then b else a }

  /** How many containers there are one inside the other. */
  function Nesting(w: WValue): nat
    decreases w, Width(w) + 1
  {
    if w.WList? then 1 + NestingFrom(w, 0) else if w.WObject? then 1 + NestingFrom(w, 0) else 0
  }

  function NestingFrom(w: WValue, i: nat): nat
    requires (w.WList? || w.WObject?) && i <= Width(w)
    decreases w, Width(w) - i
  {
    if i == Width(w) then 0
    else Max(Nesting(if w.WList? then w.items[i] else w.members[i].1), NestingFrom(w, i + 1))
  }

  // What the number text means.

  function DigitsOf(ds: string): nat {
    if ds == "" then 0
    else
      var d := ds[|ds| - 1];
      10 * DigitsOf(ds[..|ds| - 1]) + if '0' <= d <= '9' then d as nat - '0' as nat else 0
  }

  /** How many digits a text begins with. */
  function DigitsIn(t: string): (n: nat)
    ensures n <= |t| && forall i :: 0 <= i < n ==> '0' <= t[i] <= '9'
    ensures n < |t| ==> !('0' <= t[n] <= '9')
  {
    if t != "" && '0' <= t[0] <= '9' then 1 + DigitsIn(t[1..]) else 0
  }

  /** A stream reads an integer from a sign and the digits behind it, whatever follows;
      with no digits it is 0. */
  function Magnitude(text: string): nat {
    var t := if text != "" && (text[0] == '-' || text[0] == '+') then text[1..] else text;
    DigitsOf(t[..DigitsIn(t)])
  }

  predicate Negative(text: string) { text != "" && text[0] == '-' }

  /** rvalue::i: a number out of range becomes the nearest one in it. */
  function AsSigned(text: string): Int64 {
    var n := Magnitude(text);
    if Negative(text) then (if n > 0x8000_0000_0000_0000 then -0x8000_0000_0000_0000 else -(n as int))
    else if n > 0x7fff_ffff_ffff_ffff then 0x7fff_ffff_ffff_ffff
    else n
  }

  /** rvalue::u: the same, but a minus sign turns the number round modulo 2 to the 64. */
  function AsUnsigned(text: string): UInt64 {
    var n := Magnitude(text);
    if n >= 0x1_0000_0000_0000_0000 then 0xffff_ffff_ffff_ffff
    else if Negative(text) && n > 0 then 0x1_0000_0000_0000_0000 - n
    else n
  }

  lemma {:induction false} NatTextIs(n: nat)
    ensures var ds := NatText(n);
            && |ds| > 0 && (forall i :: 0 <= i < |ds| ==> '0' <= ds[i] <= '9')
            && DigitsOf(ds) == n && (ds[0] == '0' ==> n == 0) && (n == 0 ==> ds == "0")
  {
    if n >= 10 {
      NatTextIs(n / 10);
    }
    LastDigit(if n < 10 then "" else NatText(n / 10), n % 10);
  }

  lemma {:induction false} LastDigit(ds: string, d: nat)
    requires d < 10
    ensures DigitsOf(ds + [DigitChar(d)]) == 10 * DigitsOf(ds) + d
  {
    var all := ds + [DigitChar(d)];
    assert all[..|all| - 1] == ds;
  }

  lemma {:induction false} MagnitudeOf(n: int)
    ensures Magnitude(IntText(n)) == (if n < 0 then -n else n) && (Negative(IntText(n)) <==> n < 0)
  {
    hide NatText, DigitsOf, DigitsIn;
    var m := if n < 0 then -n else n;
    NatTextIs(m);
    var ds := NatText(m);
    assert DigitsIn(ds) == |ds| && ds[..|ds|] == ds;
    if n < 0 {
      assert IntText(n)[1..] == ds;
    }
  }

  /** The integer that is read back is the one that was printed, with or without a
      sign, at all 64 bits. */
  lemma {:induction false} IntegerBack(n: int)
    ensures -0x8000_0000_0000_0000 <= n < 0x8000_0000_0000_0000 ==> AsSigned(IntText(n)) == n
    ensures 0 <= n < 0x1_0000_0000_0000_0000 ==> AsUnsigned(IntText(n)) == n
  {
    MagnitudeOf(n);
    hide IntText, Magnitude, Negative;
  }
}
