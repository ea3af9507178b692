/** What the parser leaves behind: a tree of places in its buffer. */
module JsonTree {
  import opened JsonText
  import opened JsonModel

  /** Numbers and strings are parts of the buffer. Before a string stands the flag
      that says whether its escapes are still in it. */
  datatype RValue =
    | RNull | RFalse | RTrue
    | RNumber(start: nat, end: nat)
    | RString(start: nat, end: nat)
    | RList(items: seq<Entry>)
    | RObject(members: seq<Entry>)

  /** A value in a container; in an object it has a key, free of escapes. */
  datatype Entry = Entry(start: nat, end: nat, value: RValue)

  /** The parts of a value lie in the buffer from `lo` up to `hi`. */
  ghost predicate Lies(r: RValue, b: string, lo: nat, hi: nat) {
    && lo <= hi <= |b|
    && match r
       case RNumber(s, e) => lo <= s <= e <= hi
       case RString(s, e) => lo < s <= e < hi && (b[s - 1] != NUL ==> Raw(b[s..e]))
       case RList(items) => forall i :: 0 <= i < |items| ==> Lies(items[i].value, b, lo, hi)
       case RObject(ms) => forall i :: 0 <= i < |ms| ==>
           lo < ms[i].start <= ms[i].end < hi && Lies(ms[i].value, b, lo, hi)
       case _ => true
  }

  ghost function StringAt(b: string, s: nat, e: nat): string
    requires 0 < s <= e <= |b| && (b[s - 1] != NUL ==> Raw(b[s..e]))
  {
    if b[s - 1] != NUL then Decode(b[s..e]) else b[s..e]
  }

  ghost function Denote(r: RValue, b: string, lo: nat, hi: nat): Value
    requires Lies(r, b, lo, hi)
  {
    match r
    case RNull => Null
    case RFalse => False
    case RTrue => True
    case RNumber(s, e) => Number(b[s..e])
    case RString(s, e) => String(StringAt(b, s, e))
    case RList(items) =>
      List(seq(|items|, i requires 0 <= i < |items| => Denote(items[i].value, b, lo, hi)))
    case RObject(ms) =>
      Object(seq(|ms|, i requires 0 <= i < |ms| =>
        (b[ms[i].start..ms[i].end], Denote(ms[i].value, b, lo, hi))))
  }

  /** A value does not depend on the buffer outside its own part. */
  lemma {:induction false} DenoteStays(r: RValue, b: string, lo: nat, hi: nat, c: string, lo': nat, hi': nat)
    requires Lies(r, b, lo, hi) && lo' <= lo && hi <= hi' <= |b| == |c|
    requires forall i :: lo <= i < hi ==> b[i] == c[i]
    ensures Lies(r, c, lo', hi') && Denote(r, c, lo', hi') == Denote(r, b, lo, hi)
    decreases r, 1
  {
    match r
    case RNumber(s, e) => assert b[s..e] == c[s..e];
    case RString(s, e) => assert b[s..e] == c[s..e];
    case RList(items) => EntriesStay(r, items, b, lo, hi, c, lo', hi');
    case RObject(ms) =>
      EntriesStay(r, ms, b, lo, hi, c, lo', hi');
      assert forall i :: 0 <= i < |ms| ==> b[ms[i].start..ms[i].end] == c[ms[i].start..ms[i].end];
    case _ =>
  }

  lemma {:induction false} EntriesStay(r: RValue, es: seq<Entry>, b: string, lo: nat, hi: nat,
                                       c: string, lo': nat, hi': nat)
    requires r == RList(es) || r == RObject(es)
    requires Lies(r, b, lo, hi) && lo' <= lo && hi <= hi' <= |b| == |c|
    requires forall i :: lo <= i < hi ==> b[i] == c[i]
    ensures forall i :: 0 <= i < |es| ==>
              && Lies(es[i].value, b, lo, hi)
              && Lies(es[i].value, c, lo', hi')
              && Denote(es[i].value, c, lo', hi') == Denote(es[i].value, b, lo, hi)
    decreases r, 0
  {
    forall i | 0 <= i < |es|
      ensures Lies(es[i].value, b, lo, hi)
      ensures Lies(es[i].value, c, lo', hi')
      ensures Denote(es[i].value, c, lo', hi') == Denote(es[i].value, b, lo, hi)
    {
      DenoteStays(es[i].value, b, lo, hi, c, lo', hi');
    }
  }

  // The growing array of a container.

  const MAX_SIZE: nat := 0x7fff_0000
  const MAX_GROWTH: nat := 60000

  class Entries {
    var l: array<Entry>
    var lsize: nat
    var lremain: nat

    ghost predicate Valid()
      reads this
    {
      lsize + lremain == l.Length && lremain <= MAX_GROWTH
    }

    ghost function Contents(): seq<Entry>
      reads this, l
      requires Valid()
    {
      l[..lsize]
    }

    constructor ()
      ensures Valid() && Contents() == [] && fresh(l)
    {
      l, lsize, lremain := new Entry[0], 0, 0;
    }

    /** Doubles the array when it is full, but by no more than 60000, so that the
        room that is left fits in 16 bits. */
    method EmplaceBack(v: Entry)
      requires Valid() && lsize < MAX_SIZE
      modifies this, l
      ensures Valid() && Contents() == old(Contents()) + [v]
      ensures lremain < 0x1_0000 && (l == old(l) || fresh(l))
    {
      if lremain == 0 {
        var new_size := lsize + lsize;
        if new_size - lsize > MAX_GROWTH {
          new_size := lsize + MAX_GROWTH;
        }
        if new_size < 4 {
          new_size := 4;
        }
        var p := new Entry[new_size];
        var i := 0;
        while i < lsize
          invariant l == old(l) && lsize == old(lsize) <= l.Length && l[..] == old(l[..])
          invariant 0 <= i <= lsize && p[..i] == l[..i]
        {
          p[i] := l[i];
          i := i + 1;
        }
        l := p;
        lremain := new_size - lsize;
      }
      ghost var was := l[..lsize];
      l[lsize] := v;
      lsize := lsize + 1;
      lremain := lremain - 1;
      assert l[..lsize] == was + [v];
    }
  }
}
