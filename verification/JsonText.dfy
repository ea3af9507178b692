/** JSON strings: escaping them, finding where one ends, and taking the escapes
    out again in place. A byte is the character with that code. */
module JsonText {
  import Sequences

  datatype Option<+T> = None | Some(value: T)

  const NUL := '\0'
  const BS := '\U{08}'
  const FF := '\U{0C}'

  // Writing.

  function ToHex(n: nat): char
    requires n < 16
  {
    if n < 10 then '0' + n as char else 'a' + (n - 10) as char
  }

  function EscapeChar(c: char): (r: string)
    ensures 0 < |r| <= 6
  {
    if c == '"' then "\\\""
    else if c == '\\' then "\\\\"
    else if c == '\n' then "\\n"
    else if c == BS then "\\b"
    else if c == FF then "\\f"
    else if c == '\r' then "\\r"
    else if c == '\t' then "\\t"
    else if c < ' ' then "\\u00" + [ToHex(c as nat / 16), ToHex(c as nat % 16)]
    else [c]
  }

  function Escape(s: string): string {
    if s == "" then "" else EscapeChar(s[0]) + Escape(s[1..])
  }

  method EscapeInto(str: string, ret: string) returns (out: string)
    ensures out == ret + Escape(str)
  {
    out := ret;
    var i := 0;
    while i < |str|
      invariant 0 <= i <= |str| && out + Escape(str[i..]) == ret + Escape(str)
    {
      assert str[i..][0] == str[i] && str[i..][1..] == str[i + 1..];
      out := out + EscapeChar(str[i]);
      i := i + 1;
    }
  }

  // Reading: one plain character or one escape at a time.

  predicate IsHex(c: char) {
    '0' <= c <= '9' || 'a' <= c <= 'f' || 'A' <= c <= 'F'
  }

  function FromHex(c: char): (n: nat)
    requires IsHex(c)
    ensures n < 16
  {
    if c >= 'a' then c as nat - 'a' as nat + 10
    else if c >= 'A' then c as nat - 'A' as nat + 10
    else c as nat - '0' as nat
  }

  /** The bytes that an escaped code unit stands for. */
  function Utf8(code: nat): (r: string)
    requires code < 0x1_0000
    ensures 0 < |r| <= 3
  {
    if code >= 0x800 then
      [(0xE0 + code / 0x1000) as char, (0x80 + code / 0x40 % 0x40) as char, (0x80 + code % 0x40) as char]
    else if code >= 0x80 then [(0xC0 + code / 0x40) as char, (0x80 + code % 0x40) as char]
    else [code as char]
  }

  predicate IsSimpleEscape(c: char) {
    c == '"' || c == '\\' || c == '/' || c == 'b' || c == 'f' || c == 'n' || c == 'r' || c == 't'
  }

  function SimpleEscape(c: char): char {
    match c
    case 'b' => BS
    case 'f' => FF
    case 'n' => '\n'
    case 'r' => '\r'
    case 't' => '\t'
    case _ => c
  }

  /** The text starts with a plain character or a complete escape. */
  predicate UnitOk(t: string) {
    && |t| > 0
    && (t[0] == '\\' ==>
          && |t| > 1
          && if t[1] == 'u' then
               |t| >= 6 && IsHex(t[2]) && IsHex(t[3]) && IsHex(t[4]) && IsHex(t[5])
             else IsSimpleEscape(t[1]))
  }

  function UnitLength(t: string): (n: nat)
    requires UnitOk(t)
    ensures 0 < n <= |t|
  {
    if t[0] != '\\' then 1 else if t[1] == 'u' then 6 else 2
  }

  function Code(t: string): (code: nat)
    requires |t| >= 6 && IsHex(t[2]) && IsHex(t[3]) && IsHex(t[4]) && IsHex(t[5])
    ensures code < 0x1_0000
  {
    0x1000 * FromHex(t[2]) + 0x100 * FromHex(t[3]) + 0x10 * FromHex(t[4]) + FromHex(t[5])
  }

  function Unit(t: string): (r: string)
    requires UnitOk(t)
    ensures 0 < |r| <= UnitLength(t)
  {
    if t[0] != '\\' then [t[0]]
    else if t[1] == 'u' then Utf8(Code(t))
    else [SimpleEscape(t[1])]
  }

  /** The inside of an accepted string literal. */
  predicate Raw(t: string) {
    t == "" || (UnitOk(t) && Raw(t[UnitLength(t)..]))
  }

  function Decode(t: string): (r: string)
    requires Raw(t)
    ensures |r| <= |t|
  {
    if t == "" then "" else Unit(t) + Decode(t[UnitLength(t)..])
  }

  /** The text ends with a NUL. */
  predicate Terminated(t: string) { |t| > 0 && t[|t| - 1] == NUL }

  /** Where the closing quote is, in a text that follows an opening quote. */
  function StringEnd(t: string): (end: Option<nat>)
    requires Terminated(t)
    ensures end.Some? ==> end.value < |t| - 1 && t[end.value] == '"'
  {
    if t[0] == '"' then Some(0)
    else if t[0] == NUL || !UnitOk(t) then None
    else
      var n := UnitLength(t);
      var end := StringEnd(t[n..]);
      if end.None? then None else Some(n + end.value)
  }

  lemma {:induction false} StringIsRaw(t: string)
    requires Terminated(t) && StringEnd(t).Some?
    ensures Raw(t[..StringEnd(t).value])
  {
    if t[0] != '"' {
      var n, end := UnitLength(t), StringEnd(t).value;
      StringIsRaw(t[n..]);
      assert t[..end][n..] == t[n..][..end - n];
    }
  }

  // Escaping and reading back.

  lemma {:induction false} EscapedUnit(c: char, rest: string)
    ensures var t := EscapeChar(c) + rest;
            && UnitOk(t) && UnitLength(t) == |EscapeChar(c)| && Unit(t) == [c]
            && t[|EscapeChar(c)|..] == rest
            && t[0] != '"' && t[0] != NUL
  {
    var e := EscapeChar(c);
    var t := e + rest;
    assert forall i :: 0 <= i < |e| ==> t[i] == e[i];
    if |e| == 6 {
      var h, l := c as nat / 16, c as nat % 16;
      assert t[4] == ToHex(h) && t[5] == ToHex(l);
      HexBack(h);
      HexBack(l);
      assert Code(t) == c as nat;
    }
  }

  lemma HexBack(n: nat)
    requires n < 16
    ensures IsHex(ToHex(n)) && FromHex(ToHex(n)) == n
  {
  }

  /** Decoding an escaped string gives it back, for every byte string. */
  lemma {:induction false} DecodeEscape(s: string)
    ensures Raw(Escape(s)) && Decode(Escape(s)) == s
  {
    if s != "" {
      DecodeEscape(s[1..]);
      EscapedUnit(s[0], Escape(s[1..]));
    }
  }

  lemma EscapeSplit(s: string)
    requires s != ""
    ensures Escape(s) == EscapeChar(s[0]) + Escape(s[1..])
  {
  }

  lemma EscapeNone()
    ensures Escape("") == ""
  {
  }

  lemma UnitEnds(t: string, rest: string)
    requires Terminated(t) && t[0] != '"' && t[0] != NUL && UnitOk(t) && t[UnitLength(t)..] == rest && Terminated(rest)
    ensures StringEnd(t) == if StringEnd(rest).None? then None else Some(UnitLength(t) + StringEnd(rest).value)
  {
    hide UnitOk, UnitLength;
  }

  lemma QuoteEnds(rest: string)
    requires Terminated(rest)
    ensures Terminated("\"" + rest) && StringEnd("\"" + rest) == Some(0)
  {
  }

  lemma EndStays(a: string, rest: string)
    requires Terminated(rest)
    ensures Terminated(a + rest)
  {
  }

  /** A string literal made by escaping is found to end at its closing quote. */
  lemma {:induction false} EscapeEnds(s: string, rest: string)
    requires Terminated(rest)
    ensures Terminated(Escape(s) + "\"" + rest)
    ensures StringEnd(Escape(s) + "\"" + rest) == Some(|Escape(s)|)
  {
    hide Escape, EscapeChar, UnitOk, UnitLength, Unit, StringEnd, Terminated;
    EndStays(Escape(s) + "\"", rest);
    EscapeNone();
    if s == "" {
      QuoteEnds(rest);
      assert "" + "\"" == "\"";
    } else {
      var e, tail := EscapeChar(s[0]), Escape(s[1..]);
      EscapeEnds(s[1..], rest);
      EscapeSplit(s);
      Sequences.Assoc(e, tail, "\"");
      Sequences.Assoc(e, tail + "\"", rest);
      EscapedUnit(s[0], tail + "\"" + rest);
      UnitEnds(e + (tail + "\"" + rest), tail + "\"" + rest);
    }
  }

  lemma {:induction false} DecodePlain(t: string)
    requires Raw(t) && '\\' !in t
    ensures Decode(t) == t
  {
    if t != "" {
      DecodePlain(t[1..]);
      assert t == [t[0]] + t[1..];
    }
  }

  // In place.

  method WriteCode(buf: array<char>, start: nat, code: nat) returns (tail: nat)
    requires code < 0x1_0000 && start + |Utf8(code)| <= buf.Length
    modifies buf
    ensures tail == start + |Utf8(code)| && buf[start..tail] == Utf8(code)
    ensures forall i :: 0 <= i < start || tail <= i < buf.Length ==> buf[i] == old(buf[i])
  {
    tail := start;
    if code >= 0x800 {
      buf[tail] := (0xE0 + code / 0x1000) as char;
      buf[tail + 1] := (0x80 + code / 0x40 % 0x40) as char;
      buf[tail + 2] := (0x80 + code % 0x40) as char;
      tail := tail + 3;
    } else if code >= 0x80 {
      buf[tail] := (0xC0 + code / 0x40) as char;
      buf[tail + 1] := (0x80 + code % 0x40) as char;
      tail := tail + 2;
    } else {
      buf[tail] := code as char;
      tail := tail + 1;
    }
  }

  /** The unit at the front of a text goes over to what is done. */
  lemma {:induction false} UnitDone(done: string, t: string, raw: string)
    requires Raw(t) && t != "" && Raw(raw) && done + Decode(t) == Decode(raw)
    ensures UnitOk(t) && Raw(t[UnitLength(t)..])
    ensures (done + Unit(t)) + Decode(t[UnitLength(t)..]) == Decode(raw)
  {
    Sequences.Assoc(done, Unit(t), Decode(t[UnitLength(t)..]));
  }

  lemma NoUnits(t: string)
    requires Raw(t)
    ensures [] + Decode(t) == Decode(t) && Decode("") == ""
  {
  }

  /** Moves one plain character, or what one escape stands for, down to `tail`. */
  method MoveUnit(buf: array<char>, tail0: nat, head0: nat, end: nat) returns (tail: nat, head: nat)
    requires tail0 <= head0 < end <= buf.Length && UnitOk(buf[head0..end])
    modifies buf
    ensures head == head0 + UnitLength(old(buf[head0..end])) <= end
    ensures tail0 < tail <= head && buf[tail0..tail] == Unit(old(buf[head0..end]))
    ensures forall i :: 0 <= i < tail0 || head <= i < buf.Length ==> buf[i] == old(buf[i])
  {
    ghost var t := buf[head0..end];
    assert forall i :: 0 <= i < |t| ==> t[i] == buf[head0 + i];
    head, tail := head0, tail0;
    if buf[head] == '\\' {
      head := head + 1;
      if buf[head] == 'u' {
        var code := 0x1000 * FromHex(buf[head + 1]) + 0x100 * FromHex(buf[head + 2])
                    + 0x10 * FromHex(buf[head + 3]) + FromHex(buf[head + 4]);
        assert code == Code(t);
        tail := WriteCode(buf, tail, code);
        head := head + 4;
      } else {
        buf[tail] := SimpleEscape(buf[head]);
        tail := tail + 1;
      }
    } else {
      buf[tail] := buf[head];
      tail := tail + 1;
    }
    head := head + 1;
  }

  /** Takes the escapes out of a string in the buffer, if its flag says that it
      has some: the byte before the string, where the opening quote was. The
      string is written over itself: the place to write at is never ahead of the
      place to read at. */
  method Unescape(buf: array<char>, start: nat, end: nat) returns (tail: nat)
    requires 0 < start <= end < buf.Length
    requires buf[start - 1] != NUL ==> Raw(buf[start..end])
    modifies buf
    ensures start <= tail <= end
    ensures buf[start..tail]
            == if old(buf[start - 1]) != NUL then Decode(old(buf[start..end])) else old(buf[start..end])
    ensures old(buf[start - 1]) != NUL ==> buf[tail] == NUL
    ensures buf[start - 1] == NUL
    ensures forall i :: 0 <= i < start - 1 || end < i < buf.Length ==> buf[i] == old(buf[i])
  {
    if buf[start - 1] == NUL {
      return end;
    }
    tail := MoveUnits(buf, start, end);
    buf[tail] := NUL;
    buf[start - 1] := NUL;
  }

  lemma Shifted(b: string, c: string, start: nat, tail: nat, tail': nat, head: nat, head': nat, end: nat)
    requires start <= tail < tail' <= head' <= end <= |b| == |c| && tail <= head < head'
    requires forall i :: 0 <= i < tail || head' <= i < |b| ==> c[i] == b[i]
    ensures c[start..tail'] == b[start..tail] + c[tail..tail']
    ensures c[head'..end] == b[head..end][head' - head..]
  {
  }

  method MoveUnits(buf: array<char>, start: nat, end: nat) returns (tail: nat)
    requires start <= end <= buf.Length && Raw(buf[start..end])
    modifies buf
    ensures start <= tail <= end && buf[start..tail] == Decode(old(buf[start..end]))
    ensures forall i :: 0 <= i < start || end <= i < buf.Length ==> buf[i] == old(buf[i])
  {
    hide Raw, Decode, UnitOk, UnitLength, Unit;
    ghost var raw := buf[start..end];
    ghost var done, rest := [], raw;
    var head := start;
    tail := start;
    NoUnits(raw);
    while head != end
      invariant start <= tail <= head <= end
      invariant buf[start..tail] == done && buf[head..end] == rest
      invariant Raw(rest) && done + Decode(rest) == Decode(raw)
      invariant forall i :: 0 <= i < start || end <= i < buf.Length ==> buf[i] == old(buf[i])
      decreases end - head
    {
      UnitDone(done, rest, raw);
      ghost var b, tail0, head0 := buf[..], tail, head;
      tail, head := MoveUnit(buf, tail, head, end);
      Shifted(b, buf[..], start, tail0, tail, head0, head, end);
      done := done + Unit(rest);
      rest := rest[UnitLength(rest)..];
    }
    assert done == Decode(raw);
  }
}
