/** The destructive parser: it reads a buffer, and writes flags and ends of strings
    into the part that it has read. */
module JsonParser {
  import opened JsonText
  import opened JsonModel
  import opened JsonTree
  import opened JsonCursor

  const ESCAPED := '\U{01}'

  /** From the buffer `b` at `p` a parser has gone on to `q` and left the buffer
      as `c`: it changed nothing before `p`, and nothing from `q` on. */
  ghost predicate Moved(b: string, p: nat, c: string, q: nat) {
    && |b| == |c| && p <= q <= |c|
    && (forall i :: 0 <= i < p ==> c[i] == b[i])
    && (forall i :: q <= i < |c| ==> c[i] == b[i])
  }

  /** The value read is the one expected, and no more was taken than it needs. */
  ghost predicate Reads(b: string, p: nat, c: string, q: nat, ok: bool, r: RValue, v: Parsed<Value>) {
    && Moved(b, p, c, q)
    && ok == v.Good?
    && (ok ==> q == p + v.n && Lies(r, c, p, q) && Denote(r, c, p, q) == v.value)
  }

  /** The same for a string between its quotes. */
  ghost predicate ReadsString(b: string, p: nat, c: string, q: nat, ok: bool, s: nat, e: nat, v: Parsed<string>) {
    && Moved(b, p, c, q)
    && ok == v.Good?
    && (ok ==>
          && q == p + v.n && p < s <= e < q && (c[s - 1] != NUL ==> Raw(c[s..e]))
          && StringAt(c, s, e) == v.value)
  }

  class Parser {
    const buf: array<char>
    var data: nat

    /** What the buffer held at first; from `data` on it still does. */
    ghost const text: string

    ghost predicate Valid()
      reads this, buf
    {
      && Terminated(text) && |text| == buf.Length <= MAX_SIZE
      && data < buf.Length
      && forall i :: data <= i < buf.Length ==> buf[i] == text[i]
    }

    constructor (buf: array<char>)
      requires 0 < buf.Length <= MAX_SIZE && buf[buf.Length - 1] == NUL
      ensures Valid() && this.buf == buf && data == 0 && text == buf[..]
    {
      this.buf, data, text := buf, 0, buf[..];
    }

    method Consume(c: char) returns (ok: bool)
      requires Valid() && c != NUL
      modifies this`data
      ensures Valid() && ok == (text[old(data)] == c)
      ensures data == old(data) + if ok then 1 else 0
    {
      if buf[data] != c {
        return false;
      }
      data := data + 1;
      return true;
    }

    method WsSkip()
      requires Valid()
      modifies this`data
      ensures Valid() && data == Skip(text, old(data))
    {
      while buf[data] == ' ' || buf[data] == '\t' || buf[data] == '\r' || buf[data] == '\n'
        invariant Valid() && Skip(text, old(data)) == Skip(text, data)
        decreases buf.Length - data
      {
        data := data + 1;
      }
    }

    /** Reads a string literal, and leaves its flag and its end in the place of
        its quotes. */
    method DecodeString() returns (ok: bool, start: nat, end: nat)
      requires Valid()
      modifies this`data, buf
      ensures Valid()
      ensures ReadsString(old(buf[..]), old(data), buf[..], data, ok, start, end, StringIn(text, old(data)))
    {
      hide StringIn, QuoteIn, Raw, Decode;
      start, end := 0, 0;
      ok := Consume('"');
      if !ok {
        NoLiteral(text, data);
        return;
      }
      start := data;
      var has_escaping;
      ok, has_escaping := ScanString();
      if !ok {
        NoLiteral(text, start - 1);
        return;
      }
      end := data;
      LiteralIs(text, start - 1);
      ghost var b := buf[..];
      Flagged(b, text, start, end, has_escaping);
      buf[data] := NUL;
      buf[start - 1] := has_escaping;
      assert buf[..] == b[end := NUL][start - 1 := has_escaping];
      data := data + 1;
    }

    /** Looks for the closing quote. */
    method ScanString() returns (ok: bool, has_escaping: char)
      requires Valid()
      modifies this`data
      ensures Valid() && data >= old(data)
      ensures ok == QuoteIn(text, old(data)).Some?
      ensures ok ==> QuoteIn(text, old(data)) == Some(data) && text[data] == '"'
      ensures has_escaping == NUL && ok ==> '\\' !in text[old(data)..data]
    {
      ghost var start := data;
      has_escaping := NUL;
      hide QuoteIn, UnitIn, UnitEnd;
      while true
        invariant Valid() && start <= data
        invariant QuoteIn(text, start) == QuoteIn(text, data)
        invariant has_escaping == NUL ==> '\\' !in text[start..data]
        decreases buf.Length - data
      {
        QuoteStep(text, data);
        if buf[data] == '"' {
          return true, has_escaping;
        } else if buf[data] == NUL {
          return false, has_escaping;
        } else if buf[data] == '\\' {
          has_escaping := ESCAPED;
        }
        ok := ScanUnit();
        if !ok {
          return;
        }
      }
    }

    /** Goes past one plain character or one complete escape. */
    method ScanUnit() returns (ok: bool)
      requires Valid() && text[data] != NUL
      modifies this`data
      ensures Valid() && data >= old(data) && ok == UnitIn(text, old(data))
      ensures ok ==> data == UnitEnd(text, old(data))
    {
      UnitIs(text, data);
      hide UnitIn, UnitEnd;
      if buf[data] != '\\' {
        data := data + 1;
        return true;
      }
      data := data + 1;
      if buf[data] == 'u' {
        if !(IsHex(buf[data + 1]) && IsHex(buf[data + 2]) && IsHex(buf[data + 3]) && IsHex(buf[data + 4])) {
          return false;
        }
        data := data + 5;
      } else if IsSimpleEscape(buf[data]) {
        data := data + 1;
      } else {
        return false;
      }
      return true;
    }

    method DecodeNumber() returns (ok: bool, r: RValue)
      requires Valid()
      modifies this`data
      ensures Valid()
      ensures Reads(buf[..], old(data), buf[..], data, ok, r, NumberIn(text, old(data)))
    {
      hide NumberIn, NumberTo;
      var start := data;
      NumberIs(text, start);
      ghost var b := buf[start..];
      ok := ScanNumber();
      r := if ok then RNumber(start, data) else RNull;
      assert ok ==> buf[..][start..data] == b[..data - start] == text[start..data];
    }

    /** Goes past a number; a run of digits is passed in one go. */
    method ScanNumber() returns (ok: bool)
      requires Valid()
      modifies this`data
      ensures Valid() && data >= old(data)
      ensures ok == NumberTo(text, old(data), MINUS).Some?
      ensures ok ==> NumberTo(text, old(data), MINUS) == Some(data)
    {
      var state: nat := MINUS;
      hide NumberTo, IsNumberChar, NextNumber, EndsNumber;
      while state != INVALID
        invariant Valid() && old(data) <= data && state <= INVALID
        invariant NumberTo(text, old(data), MINUS) == NumberTo(text, data, state)
        decreases buf.Length - data
      {
        NumberStep(text, data, state);
        if IsNumberChar(buf[data]) {
          state := NextNumber(state, buf[data]);
          if '1' <= buf[data] <= '9' {
            PassDigits(state);
          }
        } else {
          return EndsNumber(state);
        }
        data := data + 1;
      }
      NumberIs(text, data);
      return false;
    }

    method PassDigits(ghost state: nat)
      requires Valid() && data + 1 < buf.Length
      requires state == DIGITS || state == AFTER_POINT || state == AFTER_E || state == INVALID
      modifies this`data
      ensures Valid() && old(data) <= data && data + 1 < buf.Length
      ensures NumberTo(text, data + 1, state) == NumberTo(text, old(data) + 1, state)
    {
      hide NumberTo;
      while '0' <= buf[data + 1] <= '9'
        invariant Valid() && old(data) <= data && data + 1 < buf.Length
        invariant NumberTo(text, data + 1, state) == NumberTo(text, old(data) + 1, state)
        decreases buf.Length - data
      {
        DigitStays(text, data + 1, state);
        data := data + 1;
      }
    }

    method DecodeValue(depth: nat) returns (ok: bool, r: RValue)
      requires Valid()
      modifies this`data, buf
      ensures Valid()
      ensures Reads(old(buf[..]), old(data), buf[..], data, ok, r, ValueIn(text, old(data), depth))
      decreases buf.Length - data, 2
    {
      ghost var b, p := buf[..], data;
      ValueIs(text, p, depth);
      hide ValueIn, ListIn, ObjectIn, StringIn, NumberIn, WordIn, Reads, ReadsString;
      if buf[data] == '[' {
        ok, r := DecodeList(depth + 1);
      } else if buf[data] == '{' {
        ok, r := DecodeObject(depth + 1);
      } else if buf[data] == '"' {
        var start, end;
        ok, start, end := DecodeString();
        r := RString(start, end);
        StringRead(b, p, buf[..], data, ok, start, end, StringIn(text, p));
      } else if buf[data] == 't' || buf[data] == 'f' || buf[data] == 'n' {
        ok, r := DecodeWord();
      } else {
        ok, r := DecodeNumber();
      }
    }

    method DecodeWord() returns (ok: bool, r: RValue)
      requires Valid() && (text[data] == 't' || text[data] == 'f' || text[data] == 'n')
      modifies this`data
      ensures Valid()
      ensures Reads(buf[..], old(data), buf[..], data, ok, r, WordIn(text, old(data)))
    {
      WordIs(text, data);
      hide WordIn;
      ok, r := false, RNull;
      if buf[data] == 't' {
        if buf[data + 1] == 'r' && buf[data + 2] == 'u' && buf[data + 3] == 'e' {
          data := data + 4;
          ok, r := true, RTrue;
        }
      } else if buf[data] == 'f' {
        if buf[data + 1] == 'a' && buf[data + 2] == 'l' && buf[data + 3] == 's' && buf[data + 4] == 'e' {
          data := data + 5;
          ok, r := true, RFalse;
        }
      } else if buf[data + 1] == 'u' && buf[data + 2] == 'l' && buf[data + 3] == 'l' {
        data := data + 4;
        ok := true;
      }
    }

    method DecodeList(depth: nat) returns (ok: bool, r: RValue)
      requires Valid()
      modifies this`data, buf
      ensures Valid()
      ensures Reads(old(buf[..]), old(data), buf[..], data, ok, r, ListIn(text, old(data), depth))
      decreases buf.Length - data, 1
    {
      hide ListIn, ItemsIn, ListOf, Skip;
      ghost var p := data;
      ListIs(text, p, depth);
      r := RNull;
      ok := Consume('[');
      if !ok || depth > MAX_DEPTH {
        return false, r;
      }
      WsSkip();
      ghost var w := data;
      if buf[data] == ']' {
        data := data + 1;
        return true, RList([]);
      }
      var items;
      ok, items := DecodeItems(depth);
      r := RList(items);
      if ok {
        ListRead(items, buf[..], w, data, ItemsIn(text, w, depth).value, p);
      }
    }

    /** The items of a list, up to its closing bracket. */
    method DecodeItems(depth: nat) returns (ok: bool, items: seq<Entry>)
      requires Valid()
      modifies this`data, buf
      ensures Valid() && Moved(old(buf[..]), old(data), buf[..], data)
      ensures var v := ItemsIn(text, old(data), depth);
              && ok == v.Good?
              && (ok ==> data == old(data) + v.n && ListOf(items, buf[..], old(data), data, v.value))
      decreases buf.Length - data, 4
    {
      hide ItemsIn, ValueIn, ListOf, Skip, ItemsSoFar, Moved;
      ghost var b, p, acc: seq<Value> := buf[..], data, [];
      var ret := new Entries();
      items := [];
      ItemsBegin(text, depth, b, p);
      while true
        invariant Valid() && ret.Valid() && fresh(ret) && fresh(ret.l) && p <= data && ret.lsize <= data - p
        invariant ItemsSoFar(text, depth, b, p, buf[..], data, ret.Contents(), acc)
        decreases buf.Length - data
      {
        ghost var c, q, es, v := buf[..], data, ret.Contents(), ValueIn(text, data, depth + 1);
        ItemsNow(text, depth, b, p, c, q, es, acc);
        ok := DecodeItem(depth, ret, p, acc);
        ItemsTurn(text, depth, b, p, c, q, es, acc, buf[..], data, if ok then ret.Contents() else []);
        if !ok {
          return;
        }
        acc := acc + [v.value];
        if buf[data] == ']' {
          data := data + 1;
          items := ret.l[..ret.lsize];
          return;
        }
        ok := Consume(',');
        if !ok {
          return;
        }
        WsSkip();
      }
    }

    /** One item of a list, which goes to the items read so far, and the white space
        behind it. */
    method DecodeItem(depth: nat, ret: Entries, ghost p: nat, ghost acc: seq<Value>) returns (ok: bool)
      requires Valid() && p <= data
      requires ret.Valid() && ret.lsize <= data - p && ListOf(ret.Contents(), buf[..], p, data, acc)
      modifies this`data, buf, ret, ret.l
      ensures Valid() && Moved(old(buf[..]), old(data), buf[..], data)
      ensures var v := ValueIn(text, old(data), depth + 1);
              && ok == v.Good?
              && (ok ==>
                    && data == Skip(text, old(data) + v.n)
                    && ret.Valid() && (ret.l == old(ret.l) || fresh(ret.l)) && ret.lsize <= data - p
                    && ListOf(ret.Contents(), buf[..], p, data, acc + [v.value]))
      decreases buf.Length - data, 3
    {
      hide ValueIn, Lies, Denote, Skip, ListOf;
      ghost var c, q, es, v := buf[..], data, ret.Contents(), ValueIn(text, data, depth + 1);
      var r;
      ok, r := DecodeValue(depth + 1);
      if !ok {
        return;
      }
      ghost var d, q' := buf[..], data;
      WsSkip();
      ListMore(es, c, p, q, acc, d, q', data, r, v.value);
      ret.EmplaceBack(Entry(0, 0, r));
    }

    method DecodeObject(depth: nat) returns (ok: bool, r: RValue)
      requires Valid()
      modifies this`data, buf
      ensures Valid()
      ensures Reads(old(buf[..]), old(data), buf[..], data, ok, r, ObjectIn(text, old(data), depth))
      decreases buf.Length - data, 1
    {
      hide ObjectIn, MembersIn, ObjectOf, Skip;
      ghost var p := data;
      ObjectIs(text, p, depth);
      r := RNull;
      ok := Consume('{');
      if !ok || depth > MAX_DEPTH {
        return false, r;
      }
      WsSkip();
      ghost var w := data;
      if buf[data] == '}' {
        data := data + 1;
        return true, RObject([]);
      }
      var members;
      ok, members := DecodeMembers(depth);
      r := RObject(members);
      if ok {
        ObjectRead(members, buf[..], w, data, MembersIn(text, w, depth).value, p);
      }
    }

    /** The members of an object, up to its closing brace. */
    method DecodeMembers(depth: nat) returns (ok: bool, members: seq<Entry>)
      requires Valid()
      modifies this`data, buf
      ensures Valid() && Moved(old(buf[..]), old(data), buf[..], data)
      ensures var v := MembersIn(text, old(data), depth);
              && ok == v.Good?
              && (ok ==> data == old(data) + v.n && ObjectOf(members, buf[..], old(data), data, v.value))
      decreases buf.Length - data, 5
    {
      hide MembersIn, MemberIn, ObjectOf, Skip, MembersSoFar, Moved;
      ghost var b, p, acc: seq<(string, Value)> := buf[..], data, [];
      var ret := new Entries();
      members := [];
      MembersBegin(text, depth, b, p);
      while true
        invariant Valid() && ret.Valid() && fresh(ret) && fresh(ret.l) && p <= data && ret.lsize <= data - p
        invariant MembersSoFar(text, depth, b, p, buf[..], data, ret.Contents(), acc)
        decreases buf.Length - data
      {
        ghost var c, q, es, v := buf[..], data, ret.Contents(), MemberIn(text, data, depth);
        MembersNow(text, depth, b, p, c, q, es, acc);
        ok := DecodeEntry(depth, ret, p, acc);
        MembersTurn(text, depth, b, p, c, q, es, acc, buf[..], data, if ok then ret.Contents() else []);
        if !ok {
          return;
        }
        acc := acc + [v.value];
        if buf[data] == '}' {
          data := data + 1;
          members := ret.l[..ret.lsize];
          return;
        }
        ok := Consume(',');
        if !ok {
          return;
        }
        WsSkip();
      }
    }

    /** One member of an object, which goes to the members read so far, and the
        white space behind it. */
    method DecodeEntry(depth: nat, ret: Entries, ghost p: nat, ghost acc: seq<(string, Value)>) returns (ok: bool)
      requires Valid() && p <= data
      requires ret.Valid() && ret.lsize <= data - p && ObjectOf(ret.Contents(), buf[..], p, data, acc)
      modifies this`data, buf, ret, ret.l
      ensures Valid() && Moved(old(buf[..]), old(data), buf[..], data)
      ensures var m := MemberIn(text, old(data), depth);
              && ok == m.Good?
              && (ok ==>
                    && data == Skip(text, old(data) + m.n)
                    && ret.Valid() && (ret.l == old(ret.l) || fresh(ret.l)) && ret.lsize <= data - p
                    && ObjectOf(ret.Contents(), buf[..], p, data, acc + [m.value]))
      decreases buf.Length - data, 4
    {
      hide MemberIn, MemberOf, Skip, ObjectOf;
      ghost var c, q, es, m := buf[..], data, ret.Contents(), MemberIn(text, data, depth);
      var entry;
      ok, entry := DecodeMember(depth);
      if !ok {
        return;
      }
      ghost var d, q' := buf[..], data;
      WsSkip();
      ObjectMore(es, c, p, q, acc, d, q', data, entry, m.value);
      ret.EmplaceBack(entry);
    }

    /** A key, whose escapes are taken out at once, the colon and the value. */
    method DecodeMember(depth: nat) returns (ok: bool, entry: Entry)
      requires Valid()
      modifies this`data, buf
      ensures Valid()
      ensures ReadsMember(old(buf[..]), old(data), buf[..], data, ok, entry, MemberIn(text, old(data), depth))
      decreases buf.Length - data, 3
    {
      hide MemberIn, StringIn, ValueIn, Skip, Moved, Reads, ReadsKey, ReadsMember;
      ghost var b, p := buf[..], data;
      entry := Entry(0, 0, RNull);
      var start, end;
      ok, start, end := DecodeKey();
      ghost var c, q := buf[..], data;
      if !ok {
        NoMember(text, b, p, c, q, start, end, depth);
        return;
      }
      var r;
      ok, r := DecodeValue(depth + 1);
      entry := Entry(start, end, r);
      MemberRead(text, b, p, c, q, buf[..], data, ok, entry, depth);
    }

    /** A key and the colon behind it. */
    method DecodeKey() returns (ok: bool, start: nat, end: nat)
      requires Valid()
      modifies this`data, buf
      ensures Valid() && data >= old(data)
      ensures ReadsKey(text, old(buf[..]), old(data), buf[..], data, ok, start, end)
    {
      hide StringIn, Skip, Raw, Decode;
      ghost var b, p, key := buf[..], data, StringIn(text, data);
      ok, start, end := DecodeString();
      if !ok {
        return;
      }
      WsSkip();
      ok := Consume(':');
      if !ok {
        return;
      }
      ghost var c := buf[..];
      end := Unescape(buf, start, end);
      assert buf[start..end] == key.value;
      Unescaped(b, p, c, p + key.n, buf[..]);
      WsSkip();
    }

    /** Reads the whole text. */
    method Parse() returns (ok: bool, r: RValue)
      requires Valid() && data == 0 && text == buf[..]
      modifies this`data, buf
      ensures ok == ParseText(text).Some?
      ensures ok ==> data < buf.Length && Lies(r, buf[..], 0, data) && Denote(r, buf[..], 0, data) == ParseText(text).value
    {
      TextIs(text);
      hide ValueIn, Lies, Denote, Skip, ParseText;
      WsSkip();
      ghost var w := data;
      ok, r := DecodeValue(0);
      ghost var c, q := buf[..], data;
      WsSkip();
      if ok {
        DenoteStays(r, c, w, q, c, 0, data);
      }
      if ok && buf[data] != NUL {
        ok := false;
      }
    }
  }

  /** Copies a text into a buffer of its own, with a NUL behind it, and reads it. */
  method Load(text: string) returns (value: Option<RValue>, s: array<char>)
    requires |text| < MAX_SIZE
    ensures fresh(s)
    ensures value.Some? == ParseText(text + [NUL]).Some?
    ensures value.Some? ==>
              && Lies(value.value, s[..], 0, s.Length)
              && Denote(value.value, s[..], 0, s.Length) == ParseText(text + [NUL]).value
  {
    s := new char[|text| + 1];
    forall i | 0 <= i < |text| {
      s[i] := text[i];
    }
    s[|text|] := NUL;
    assert s[..] == text + [NUL];
    var parser := new Parser(s);
    var ok, r := parser.Parse();
    if ok {
      DenoteStays(r, s[..], 0, parser.data, s[..], 0, s.Length);
      return Some(r), s;
    }
    return None, s;
  }

  lemma TextIs(t: string)
    requires Terminated(t)
    ensures ParseText(t)
            == var w := Skip(t, 0);
               var v := ValueIn(t, w, 0);
               if v.Bad? then None
               else if t[Skip(t, w + v.n)] == NUL then Some(v.value) else None
  {
  }

  /** Two parts of the way, one behind the other. */
  lemma MovedOn(b: string, p: nat, c: string, q: nat, d: string, r: nat)
    requires Moved(b, p, c, q) && Moved(c, q, d, r)
    ensures Moved(b, p, d, r)
  {
  }

  lemma MovedPast(b: string, p: nat, c: string, q: nat, r: nat)
    requires Moved(b, p, c, q) && q <= r <= |c|
    ensures Moved(b, p, c, r)
  {
  }

  /** What is done inside a part that has been read. */
  lemma Unescaped(b: string, p: nat, c: string, q: nat, d: string)
    requires Moved(b, p, c, q) && |d| == |c|
    requires forall i :: 0 <= i < p || q <= i < |c| ==> d[i] == c[i]
    ensures Moved(b, p, d, q)
  {
  }

  lemma StringRead(b: string, p: nat, c: string, q: nat, ok: bool, s: nat, e: nat, v: Parsed<string>)
    requires ReadsString(b, p, c, q, ok, s, e, v)
    ensures Reads(b, p, c, q, ok, RString(s, e), if v.Bad? then Bad else Good(String(v.value), v.n))
  {
  }

  // The items of a list that have been read.

  ghost predicate ListOf(es: seq<Entry>, c: string, p: nat, q: nat, acc: seq<Value>) {
    && |es| == |acc| && p <= q <= |c|
    && forall i :: 0 <= i < |es| ==> Lies(es[i].value, c, p, q) && Denote(es[i].value, c, p, q) == acc[i]
  }

  lemma ListNone(b: string, p: nat)
    requires p <= |b|
    ensures ListOf([], b, p, p, [])
  {
  }

  lemma {:induction false} ListKept(es: seq<Entry>, c: string, p: nat, q: nat, acc: seq<Value>, d: string, r: nat)
    requires ListOf(es, c, p, q, acc) && |d| == |c| && q <= r <= |c|
    requires forall i :: 0 <= i < q ==> d[i] == c[i]
    ensures ListOf(es, d, p, r, acc)
  {
    forall i | 0 <= i < |es|
      ensures Lies(es[i].value, d, p, r) && Denote(es[i].value, d, p, r) == acc[i]
    {
      DenoteStays(es[i].value, c, p, q, d, p, r);
    }
  }

  lemma {:induction false} ListMore(es: seq<Entry>, c: string, p: nat, q: nat, acc: seq<Value>,
                                    d: string, q': nat, r: nat, x: RValue, v: Value)
    requires ListOf(es, c, p, q, acc) && Moved(c, q, d, q') && q' <= r <= |d|
    requires Lies(x, d, q, q') && Denote(x, d, q, q') == v
    ensures ListOf(es + [Entry(0, 0, x)], d, p, r, acc + [v])
  {
    hide Lies, Denote;
    ListKept(es, c, p, q, acc, d, r);
    DenoteStays(x, d, q, q', d, p, r);
  }

  /** In the middle of the loop over the items of a list of the text `t` that began at
      `p`: the buffer, which was `b`, is `c` now, and `es` are those read. */
  ghost predicate ItemsSoFar(t: string, depth: nat, b: string, p: nat, c: string, q: nat, es: seq<Entry>, acc: seq<Value>) {
    && Terminated(t) && p <= q < |t|
    && Moved(b, p, c, q) && ListOf(es, c, p, q, acc)
    && ItemsIn(t, p, depth) == Prepend(acc, q - p, ItemsIn(t, q, depth))
  }

  lemma ItemsBegin(t: string, depth: nat, b: string, p: nat)
    requires Terminated(t) && p < |t| == |b|
    ensures ItemsSoFar(t, depth, b, p, b, p, [], [])
  {
    hide ItemsIn, ListOf;
    ListNone(b, p);
    PrependNone(ItemsIn(t, p, depth));
  }

  lemma ItemsNow(t: string, depth: nat, b: string, p: nat, c: string, q: nat, es: seq<Entry>, acc: seq<Value>)
    requires ItemsSoFar(t, depth, b, p, c, q, es, acc)
    ensures p <= q && Moved(b, p, c, q) && ListOf(es, c, p, q, acc)
  {
  }

  /** One item has been read, or was refused. */
  lemma ItemsTurn(t: string, depth: nat, b: string, p: nat, c: string, q: nat, es: seq<Entry>, acc: seq<Value>,
             d: string, r: nat, more: seq<Entry>)
    requires ItemsSoFar(t, depth, b, p, c, q, es, acc) && Moved(c, q, d, r)
    requires var v := ValueIn(t, q, depth + 1);
             v.Good? ==> r == Skip(t, q + v.n) && r < |t| == |d| && ListOf(more, d, p, r, acc + [v.value])
    ensures Moved(b, p, d, r)
    ensures var v := ValueIn(t, q, depth + 1);
            if v.Bad? || (t[r] != ']' && t[r] != ',') then ItemsIn(t, p, depth).Bad?
            else if t[r] == ']' then
              && ItemsIn(t, p, depth) == Good(acc + [v.value], r + 1 - p)
              && Moved(b, p, d, r + 1) && ListOf(more, d, p, r + 1, acc + [v.value])
            else r + 1 < |t| && ItemsSoFar(t, depth, b, p, d, Skip(t, r + 1), more, acc + [v.value])
  {
    hide ItemsIn, ValueIn, ListOf, Skip;
    var v := ValueIn(t, q, depth + 1);
    ItemsStep(t, p, q, acc, depth);
    MovedOn(b, p, c, q, d, r);
    if v.Good? && t[r] == ']' {
      ListKept(more, d, p, r, acc + [v.value], d, r + 1);
      MovedPast(b, p, d, r, r + 1);
    } else if v.Good? && t[r] == ',' {
      var w := Skip(t, r + 1);
      ListKept(more, d, p, r, acc + [v.value], d, w);
      MovedPast(b, p, d, r, w);
    }
  }

  lemma {:induction false} ListRead(es: seq<Entry>, c: string, w: nat, q: nat, acc: seq<Value>, p: nat)
    requires ListOf(es, c, w, q, acc) && p <= w
    ensures Lies(RList(es), c, p, q) && Denote(RList(es), c, p, q) == List(acc)
  {
    forall i | 0 <= i < |es|
      ensures Lies(es[i].value, c, p, q) && Denote(es[i].value, c, p, q) == acc[i]
    {
      DenoteStays(es[i].value, c, w, q, c, p, q);
    }
  }

  // The members of an object that have been read.

  ghost predicate MemberOf(e: Entry, c: string, p: nat, q: nat, m: (string, Value)) {
    && p < e.start <= e.end < q <= |c| && c[e.start..e.end] == m.0
    && Lies(e.value, c, p, q) && Denote(e.value, c, p, q) == m.1
  }

  ghost predicate ObjectOf(es: seq<Entry>, c: string, p: nat, q: nat, acc: seq<(string, Value)>) {
    |es| == |acc| && p <= q <= |c| && forall i :: 0 <= i < |es| ==> MemberOf(es[i], c, p, q, acc[i])
  }

  /** A key of the text `t` with its colon has been read, and the white space. */
  ghost predicate ReadsKey(t: string, b: string, p: nat, c: string, q: nat, ok: bool, s: nat, e: nat)
    requires Terminated(t) && p < |t|
  {
    && Moved(b, p, c, q)
    && var key := StringIn(t, p);
       if key.Bad? then !ok
       else
         var colon := Skip(t, p + key.n);
         && ok == (t[colon] == ':')
         && (ok ==> q == Skip(t, colon + 1) && p < s <= e < q && c[s..e] == key.value)
  }

  ghost predicate ReadsMember(b: string, p: nat, c: string, q: nat, ok: bool, e: Entry, m: Parsed<(string, Value)>) {
    && Moved(b, p, c, q)
    && ok == m.Good?
    && (ok ==> q == p + m.n && MemberOf(e, c, p, q, m.value))
  }

  lemma {:induction false} NoMember(t: string, b: string, p: nat, c: string, q: nat, s: nat, e: nat, depth: nat)
    requires Terminated(t) && p < |t| && ReadsKey(t, b, p, c, q, false, s, e)
    ensures forall x :: ReadsMember(b, p, c, q, false, x, MemberIn(t, p, depth))
  {
    MemberIs(t, p, depth);
    hide MemberIn, StringIn, Skip, Moved;
  }

  lemma {:induction false} MemberRead(t: string, b: string, p: nat, c: string, q: nat, d: string, r: nat,
                                      ok: bool, e: Entry, depth: nat)
    requires Terminated(t) && p < |t| && q < |t| && ReadsKey(t, b, p, c, q, true, e.start, e.end)
    requires Reads(c, q, d, r, ok, e.value, ValueIn(t, q, depth + 1))
    ensures ReadsMember(b, p, d, r, ok, e, MemberIn(t, p, depth))
  {
    hide MemberIn, StringIn, ValueIn, Skip;
    MemberIs(t, p, depth);
    assert d[e.start..e.end] == c[e.start..e.end];
    if ok {
      DenoteStays(e.value, d, q, r, d, p, r);
    }
  }

  lemma ObjectNone(b: string, p: nat)
    requires p <= |b|
    ensures ObjectOf([], b, p, p, [])
  {
  }

  lemma {:induction false} MemberKept(e: Entry, c: string, p: nat, q: nat, m: (string, Value),
                                      d: string, p': nat, r: nat)
    requires MemberOf(e, c, p, q, m) && |d| == |c| && p' <= p && q <= r <= |c|
    requires forall i :: p <= i < q ==> d[i] == c[i]
    ensures MemberOf(e, d, p', r, m)
  {
    DenoteStays(e.value, c, p, q, d, p', r);
    assert d[e.start..e.end] == c[e.start..e.end];
  }

  lemma {:induction false} ObjectKept(es: seq<Entry>, c: string, p: nat, q: nat, acc: seq<(string, Value)>,
                                      d: string, r: nat)
    requires ObjectOf(es, c, p, q, acc) && |d| == |c| && q <= r <= |c|
    requires forall i :: 0 <= i < q ==> d[i] == c[i]
    ensures ObjectOf(es, d, p, r, acc)
  {
    forall i | 0 <= i < |es| ensures MemberOf(es[i], d, p, r, acc[i]) {
      MemberKept(es[i], c, p, q, acc[i], d, p, r);
    }
  }

  lemma {:induction false} ObjectMore(es: seq<Entry>, c: string, p: nat, q: nat, acc: seq<(string, Value)>,
                                      d: string, q': nat, r: nat, e: Entry, m: (string, Value))
    requires ObjectOf(es, c, p, q, acc) && Moved(c, q, d, q') && q' <= r <= |d|
    requires MemberOf(e, d, q, q', m)
    ensures ObjectOf(es + [e], d, p, r, acc + [m])
  {
    hide MemberOf;
    ObjectKept(es, c, p, q, acc, d, r);
    MemberKept(e, d, q, q', m, d, p, r);
  }

  /** In the middle of the loop over the members of an object of the text `t` that began at
      `p`: the buffer, which was `b`, is `c` now, and `es` are those read. */
  ghost predicate MembersSoFar(t: string, depth: nat, b: string, p: nat, c: string, q: nat, es: seq<Entry>, acc: seq<(string, Value)>) {
    && Terminated(t) && p <= q < |t|
    && Moved(b, p, c, q) && ObjectOf(es, c, p, q, acc)
    && MembersIn(t, p, depth) == Prepend(acc, q - p, MembersIn(t, q, depth))
  }

  lemma MembersBegin(t: string, depth: nat, b: string, p: nat)
    requires Terminated(t) && p < |t| == |b|
    ensures MembersSoFar(t, depth, b, p, b, p, [], [])
  {
    hide MembersIn, ObjectOf;
    ObjectNone(b, p);
    PrependNone(MembersIn(t, p, depth));
  }

  lemma MembersNow(t: string, depth: nat, b: string, p: nat, c: string, q: nat, es: seq<Entry>, acc: seq<(string, Value)>)
    requires MembersSoFar(t, depth, b, p, c, q, es, acc)
    ensures p <= q && Moved(b, p, c, q) && ObjectOf(es, c, p, q, acc)
  {
  }

  /** One member has been read, or was refused. */
  lemma MembersTurn(t: string, depth: nat, b: string, p: nat, c: string, q: nat, es: seq<Entry>, acc: seq<(string, Value)>,
             d: string, r: nat, more: seq<Entry>)
    requires MembersSoFar(t, depth, b, p, c, q, es, acc) && Moved(c, q, d, r)
    requires var v := MemberIn(t, q, depth);
             v.Good? ==> r == Skip(t, q + v.n) && r < |t| == |d| && ObjectOf(more, d, p, r, acc + [v.value])
    ensures Moved(b, p, d, r)
    ensures var v := MemberIn(t, q, depth);
            if v.Bad? || (t[r] != '}' && t[r] != ',') then MembersIn(t, p, depth).Bad?
            else if t[r] == '}' then
              && MembersIn(t, p, depth) == Good(acc + [v.value], r + 1 - p)
              && Moved(b, p, d, r + 1) && ObjectOf(more, d, p, r + 1, acc + [v.value])
            else r + 1 < |t| && MembersSoFar(t, depth, b, p, d, Skip(t, r + 1), more, acc + [v.value])
  {
    hide MembersIn, MemberIn, ObjectOf, Skip;
    var v := MemberIn(t, q, depth);
    MembersStep(t, p, q, acc, depth);
    MovedOn(b, p, c, q, d, r);
    if v.Good? && t[r] == '}' {
      ObjectKept(more, d, p, r, acc + [v.value], d, r + 1);
      MovedPast(b, p, d, r, r + 1);
    } else if v.Good? && t[r] == ',' {
      var w := Skip(t, r + 1);
      ObjectKept(more, d, p, r, acc + [v.value], d, w);
      MovedPast(b, p, d, r, w);
    }
  }

  lemma {:induction false} ObjectRead(es: seq<Entry>, c: string, w: nat, q: nat, acc: seq<(string, Value)>, p: nat)
    requires ObjectOf(es, c, w, q, acc) && p <= w
    ensures Lies(RObject(es), c, p, q) && Denote(RObject(es), c, p, q) == Object(acc)
  {
    forall i | 0 <= i < |es| ensures MemberOf(es[i], c, p, q, acc[i]) {
      MemberKept(es[i], c, w, q, acc[i], c, p, q);
    }
  }

  /** A literal of which the quotes have been written over. */
  lemma Flagged(b: string, t: string, start: nat, end: nat, flag: char)
    requires 0 < start <= end < |b| == |t| && forall i :: start <= i < |b| ==> b[i] == t[i]
    ensures var c := b[end := NUL][start - 1 := flag];
            c[start..end] == t[start..end] && Moved(b, start - 1, c, end + 1)
  {
  }
}
