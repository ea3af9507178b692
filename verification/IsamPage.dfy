/** Data pages in memory, which are edited in place. */
module IsamPages {
  import Sequences
  import opened IsamModel

  function SetImage(p: Page, r: Record, i: nat): Page
    requires i < |p.slots|
  {
    p.(count := p.count + 1, slots := p.slots[i := r])
  }

  lemma AppendedLive(p: Page, r: Record)
    requires PageOk(p) && p.count < N
    ensures PageOk(SetImage(p, r, p.count)) && Live(SetImage(p, r, p.count)) == Live(p) + [r]
  {
  }

  /** Where the insertion loop stops, starting from slot `j`: it compares the
      new key with slot `j` itself, which at first lies past the records. */
  function InsertPos(slots: seq<Record>, j: nat, key: int): (k: nat)
    requires j < |slots|
    ensures k <= j
  {
    if j > 0 && key < slots[j].key then InsertPos(slots, j - 1, key) else j
  }

  function Inserted(p: Page, r: Record): Page
    requires PageOk(p) && p.count < N
  {
    var j := InsertPos(p.slots, p.count, r.key);
    Page(p.count + 1, p.next, p.slots[..j] + [r] + p.slots[j..p.count] + p.slots[p.count + 1..])
  }

  /** The slots after those from `j` on were copied one up, as far as `n`. */
  ghost function Raised(was: seq<Record>, j: nat, n: nat): seq<Record>
    requires j <= n < |was|
  {
    was[..j + 1] + was[j..n] + was[n + 1..]
  }

  /** The slots after `i` were copied one down, up to `j`. */
  ghost function Lowered(was: seq<Record>, i: nat, j: nat): seq<Record>
    requires i < j <= |was|
  {
    was[..i] + was[i + 1..j] + was[j - 1..]
  }

  lemma RaisedMore(was: seq<Record>, j: nat, n: nat)
    requires j < n < |was|
    ensures Raised(was, j + 1, n)[j] == was[j] == Raised(was, j, n)[j]
    ensures Raised(was, j + 1, n)[j + 1 := was[j]] == Raised(was, j, n)
  {
  }

  lemma LoweredMore(was: seq<Record>, i: nat, j: nat)
    requires i < j < |was|
    ensures Lowered(was, i, j)[j - 1 := Lowered(was, i, j)[j]] == Lowered(was, i, j + 1)
  {
  }

  lemma RaisedEnds(p: Page, r: Record)
    requires PageOk(p) && p.count < N
    ensures Raised(p.slots, p.count, p.count) == p.slots
    ensures var j := InsertPos(p.slots, p.count, r.key);
            Inserted(p, r) == Page(p.count + 1, p.next, Raised(p.slots, j, p.count)[j := r])
  {
    var j := InsertPos(p.slots, p.count, r.key);
    var s, n := p.slots, p.count;
    assert s[..j + 1] + s[j..n] + s[n + 1..] == (s[..j] + [s[j]]) + s[j..n] + s[n + 1..];
  }

  lemma LoweredEnds(p: Page, i: nat)
    requires PageOk(p) && i < p.count
    ensures Lowered(p.slots, i, i + 1) == p.slots
    ensures Removed(p, i)
            == Page(p.count - 1, p.next, Lowered(p.slots, i, p.count)[p.count - 1 := DEFAULT_RECORD])
  {
    var s, n := p.slots, p.count;
    var a := s[..i] + s[i + 1..n];
    Sequences.First(s, n - 1);
    Sequences.Assoc(a, [s[n - 1]], s[n..]);
    Sequences.Put(a, s[n - 1], s[n..], DEFAULT_RECORD);
    assert s[i + 1..i + 1] == [];
  }

  /** The records are the old ones with the new one put among them. */
  lemma InsertedLive(p: Page, r: Record)
    requires PageOk(p) && p.count < N
    ensures var j := InsertPos(p.slots, p.count, r.key);
            && PageOk(Inserted(p, r))
            && Live(Inserted(p, r)) == Live(p)[..j] + [r] + Live(p)[j..]
  {
  }

  predicate Sorted(rs: seq<Record>) {
    forall i, j :: 0 <= i < j < |rs| ==> rs[i].key <= rs[j].key
  }

  /** Where the loop stops: everything it passed over is greater. */
  lemma {:induction false} InsertPosIs(slots: seq<Record>, j: nat, key: int)
    requires j < |slots|
    ensures var k := InsertPos(slots, j, key);
            && (forall i :: k < i <= j ==> key < slots[i].key)
            && (k == 0 || slots[k].key <= key)
  {
    if j > 0 && key < slots[j].key {
      InsertPosIs(slots, j - 1, key);
    }
  }

  /** An insertion of a new key keeps a sorted page sorted exactly when the key
      goes to one of the two ends and what is left in the slot past the records
      happens to send it there: the loop stops one slot early everywhere else. */
  lemma InsertKeepsSortedIff(p: Page, r: Record)
    requires PageOk(p) && 0 < p.count < N && Sorted(Live(p))
    requires forall i :: 0 <= i < p.count ==> Live(p)[i].key != r.key
    ensures var left := p.slots[p.count].key;
            Sorted(Live(Inserted(p, r)))
            <==> if left <= r.key then Live(p)[p.count - 1].key < r.key else r.key < Live(p)[0].key
  {
    InsertedLive(p, r);
    InsertPosIs(p.slots, p.count, r.key);
    var k := InsertPos(p.slots, p.count, r.key);
    var l, after := Live(p), Live(Inserted(p, r));
    assert after[k] == r;
    if k == p.count {
      assert after[p.count - 1] == l[p.count - 1];
    } else if k > 0 {
      assert after[k + 1] == l[k] && l[k].key < r.key;
      assert l[0].key <= l[k].key;
    } else {
      assert after[1] == l[0];
    }
  }

  /** The key 3 goes behind the keys 1 and 5 when a removal has left its record in
      the slot past them. */
  lemma InsertUnsorts()
    ensures var a, b, r := Record(1, 0, NONE), Record(5, 1, NONE), Record(3, 2, NONE);
            var p := Page(2, NONE, [a, b, DEFAULT_RECORD]);
            PageOk(p) && Sorted(Live(p)) && Live(Inserted(p, r)) == [a, b, r] && !Sorted(Live(Inserted(p, r)))
  {
    var p, r := Page(2, NONE, [Record(1, 0, NONE), Record(5, 1, NONE), DEFAULT_RECORD]), Record(3, 2, NONE);
    InsertedLive(p, r);
    var after := Live(Inserted(p, r));
    assert after[1].key == 5 && after[2].key == 3;
  }

  /** The records of a page after the one at `i` is taken out. */
  function Removed(p: Page, i: nat): Page
    requires PageOk(p) && i < p.count
  {
    Page(p.count - 1, p.next,
         p.slots[..i] + p.slots[i + 1..p.count] + [DEFAULT_RECORD] + p.slots[p.count..])
  }

  lemma RemovedLive(p: Page, i: nat)
    requires PageOk(p) && i < p.count
    ensures PageOk(Removed(p, i)) && Live(Removed(p, i)) == Live(p)[..i] + Live(p)[i + 1..]
  {
  }

  /** The first record with the key is at `i`, which is past the end for none. */
  ghost predicate FirstAt(rs: seq<Record>, key: int, i: nat) {
    && i <= |rs|
    && (forall j :: 0 <= j < i ==> rs[j].key != key)
    && (i < |rs| ==> rs[i].key == key)
  }

  class DataPage {
    const records: array<Record>
    var next: int
    var count: int

    /** The page as it would be written. */
    function Image(): Page
      reads this, records
    {
      Page(count, next, records[..])
    }

    ghost predicate Valid()
      reads this, records
    {
      PageOk(Image())
    }

    /** An empty page: the slots hold whatever the memory held. */
    constructor ()
      ensures Valid() && count == 0 && next == NONE && fresh(records)
    {
      records := new Record[N];
      next, count := NONE, 0;
    }

    method Read(p: Page)
      requires records.Length == |p.slots|
      modifies this, records
      ensures Image() == p
    {
      count, next := p.count, p.next;
      forall i | 0 <= i < |p.slots| {
        records[i] := p.slots[i];
      }
    }

    predicate IsEmpty()
      reads this
    {
      count == 0
    }

    predicate IsFull()
      reads this
    {
      count == N
    }

    function Last(): Record
      reads this, records
      requires Valid() && count > 0
    {
      records[count - 1]
    }

    /** The first slot with the key, if a record has it. */
    method IndexOf(key: int) returns (i: nat)
      requires Valid()
      ensures i <= count
      ensures FirstAt(Live(Image()), key, i)
    {
      i := 0;
      while i < count && records[i].key != key
        invariant 0 <= i <= count
        invariant forall j :: 0 <= j < i ==> Live(Image())[j].key != key
      {
        i := i + 1;
      }
    }

    method SetRecord(r: Record, i: nat)
      requires i < records.Length
      modifies this`count, records
      ensures Image() == SetImage(old(Image()), r, i)
    {
      records[i] := r;
      count := count + 1;
    }

    method ClearRecord(i: nat)
      requires i < records.Length
      modifies this`count, records
      ensures Image() == old(Image()).(count := old(count) - 1, slots := old(records[..])[i := NO_RECORD])
    {
      records[i] := NO_RECORD;
      count := count - 1;
    }

    /** Shifts records up until the loop stops, and puts the new one there. */
    method InsertRecord(r: Record) returns (ok: bool, ghost at: nat)
      requires Valid()
      modifies this`count, records
      ensures ok == (old(count) < N)
      ensures Image() == if ok then Inserted(old(Image()), r) else old(Image())
      ensures ok ==>
                && Valid() && count == old(count) + 1
                && at == InsertPos(old(records[..]), old(count), r.key)
                && Live(Image()) == old(Live(Image()))[..at] + [r] + old(Live(Image()))[at..]
    {
      if IsFull() {
        return false, 0;
      }
      ghost var before := Image();
      InsertedLive(before, r);
      hide Live;
      ok, at := true, InsertPos(records[..], count, r.key);
      if count == 0 {
        SetRecord(r, 0);
        return;
      }
      hide Raised, Inserted;
      RaisedEnds(before, r);
      hide Raised, Inserted, InsertPos;
      var j := ShiftUp(r.key);
      SetRecord(r, j);
    }

    /** Makes room for a record with the key. */
    method ShiftUp(key: int) returns (j: nat)
      requires Valid() && 0 < count < N
      modifies this`count, records
      ensures count == old(count)
      ensures j == InsertPos(old(records[..]), count, key) && records[..] == Raised(old(records[..]), j, count)
    {
      ghost var was, n := records[..], count;
      RaisedEnds(Image(), DEFAULT_RECORD);
      hide Raised, Inserted;
      j := count;
      while j > 0 && key < records[j].key
        invariant 0 <= j <= n && count == n
        invariant records[..] == Raised(was, j, n) && records[j] == was[j]
        invariant InsertPos(was, n, key) == InsertPos(was, j, key)
        decreases j
      {
        j := j - 1;
        RaisedMore(was, j, n);
        SetRecord(records[j], j + 1);
        count := count - 1;
      }
    }

    /** Takes out the record at `i`, shifting the later ones down. */
    method Remove(i: int) returns (ok: bool)
      requires Valid()
      modifies this`count, records
      ensures ok == (0 <= i < old(count))
      ensures Image() == if ok then Removed(old(Image()), i) else old(Image())
    {
      hide Lowered, Removed;
      if i < 0 || i >= count {
        return false;
      }
      ok := true;
      ghost var was, n := records[..], count;
      LoweredEnds(Image(), i);
      if i == count - 1 {
        records[i] := DEFAULT_RECORD;
      } else {
        var j := i + 1;
        while j < count
          invariant i + 1 <= j <= n && count == n && records.Length == N
          invariant records[..] == Lowered(was, i, j)
          decreases n - j
        {
          LoweredMore(was, i, j);
          SetRecord(records[j], j - 1);
          count := count - 1;
          j := j + 1;
        }
        records[j - 1] := DEFAULT_RECORD;
      }
      count := count - 1;
    }
  }
}
