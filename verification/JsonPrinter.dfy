/** The printer, and a value printed and read back. */
module JsonPrinter {
  import opened JsonText
  import opened JsonModel
  import opened JsonTree
  import opened JsonRoundTrip
  import opened JsonParser
  import Sequences

  method DumpString(str: string, out0: string) returns (out: string)
    ensures out == out0 + ("\"" + Escape(str) + "\"")
  {
    out := EscapeInto(str, out0 + "\"");
    out := out + "\"";
  }

  /** Appends what a value is printed as. */
  method DumpInternal(v: WValue, out0: string) returns (out: string)
    ensures out == out0 + Dump(v)
    decreases v, 1
  {
    match v
    case WNull => out := out0 + "null";
    case WFalse => out := out0 + "false";
    case WTrue => out := out0 + "true";
    case Signed(n) => out := out0 + IntText(n);
    case Unsigned(n) => out := out0 + IntText(n);
    case WString(s) => out := DumpString(s, out0);
    case WList(_) => out := DumpList(v, out0);
    case WObject(_) => out := DumpObject(v, out0);
  }

  method DumpList(v: WValue, out0: string) returns (out: string)
    requires v.WList?
    ensures out == out0 + Dump(v)
    decreases v, 0
  {
    out := out0 + "[";
    var first, i := true, 0;
    while i < |v.items|
      invariant 0 <= i <= |v.items| && first == (i == 0)
      invariant out + Rest(DumpItems(v, i), i < |v.items|, first) == out0 + "[" + DumpItems(v, 0)
    {
      ghost var done := out;
      if !first {
        out := out + ",";
      }
      first := false;
      ghost var comma := out;
      out := DumpInternal(v.items[i], out);
      Appended(done, comma, Dump(v.items[i]), DumpItems(v, i + 1), DumpItems(v, i), i > 0, i + 1 < |v.items|);
      i := i + 1;
    }
    Closed(out0, "[", DumpItems(v, 0), "]", out);
    out := out + "]";
  }

  method DumpObject(v: WValue, out0: string) returns (out: string)
    requires v.WObject?
    ensures out == out0 + Dump(v)
    decreases v, 0
  {
    hide Escape;
    out := out0 + "{";
    var first, i := true, 0;
    while i < |v.members|
      invariant 0 <= i <= |v.members| && first == (i == 0)
      invariant out + Rest(DumpMembers(v, i), i < |v.members|, first) == out0 + "{" + DumpMembers(v, 0)
    {
      ghost var done := out;
      if !first {
        out := out + ",";
      }
      first := false;
      ghost var comma := out;
      out := DumpString(v.members[i].0, out);
      out := out + ":";
      out := DumpInternal(v.members[i].1, out);
      MemberJoined(comma, Escape(v.members[i].0), Dump(v.members[i].1));
      Appended(done, comma, DumpMember(v, i), DumpMembers(v, i + 1), DumpMembers(v, i), i > 0, i + 1 < |v.members|);
      i := i + 1;
    }
    Closed(out0, "{", DumpMembers(v, 0), "}", out);
    out := out + "}";
  }

  lemma MemberJoined(t: string, key: string, value: string)
    ensures t + ("\"" + key + "\"") + ":" + value == t + ("\"" + key + "\":" + value)
  {
  }

  lemma Closed(t: string, open: string, inside: string, close: string, out: string)
    ensures out + "" == out && t + open + inside + close == t + (open + inside + close)
  {
  }

  /** What is still to come: with a comma before it, unless it comes first. */
  ghost function Rest(t: string, more: bool, first: bool): string {
    if more && !first then "," + t else t
  }

  lemma Appended(done: string, comma: string, a: string, b: string, t: string, later: bool, more: bool)
    requires comma == if later then done + "," else done
    requires t == if more then a + "," + b else a
    requires !more ==> b == ""
    ensures comma + a + Rest(b, more, false) == done + Rest(t, true, !later)
  {
  }

  /** For every value, the text it is printed as is read back as that value if at
      most 5000 containers are one inside the other, and refused otherwise. */
  method DumpAndLoad(v: WValue) returns (value: Option<RValue>, s: array<char>)
    requires |Dump(v)| < MAX_SIZE
    ensures value.Some? <==> Nesting(v) <= 5000
    ensures value.Some? ==> Lies(value.value, s[..], 0, s.Length) && Denote(value.value, s[..], 0, s.Length) == AsRead(v)
  {
    var text := DumpInternal(v, "");
    assert text == Dump(v);
    RoundTrip(v);
    value, s := Load(text);
  }
}
