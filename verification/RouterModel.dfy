/** Routing patterns, what a URL must look like to match one, and the tree that
    holds them. */
module RouterModel {

  datatype Option<T> = None | Some(value: T)

  datatype ParamType = INT | UINT | DOUBLE | STRING | PATH | MAX

  /** MAX means that the node stands for the text in its key. */
  datatype Node = Node(rule: nat, key: string, param: ParamType, children: seq<Node>)

  const EMPTY := Node(0, "", MAX, [])

  const MIN_INT64: int := -0x8000_0000_0000_0000
  const MAX_INT64: int := 0x7fff_ffff_ffff_ffff
  const MAX_UINT64: int := 0xffff_ffff_ffff_ffff

  // Patterns.

  datatype Token = Literal(ch: char) | Typed(param: ParamType)

  function Literals(s: string): seq<Token> {
    seq(|s|, i requires 0 <= i < |s| => Literal(s[i]))
  }

  predicate StartsWith(s: string, pos: nat, piece: string) {
    pos + |piece| <= |s| && s[pos..pos + |piece|] == piece
  }

  /** The first tag in the table that the text at `pos` starts with: its type
      and its length. */
  function TagAt(s: string, pos: nat): (tag: Option<(ParamType, nat)>)
    ensures tag.Some? ==> tag.value.0 != MAX && 0 < tag.value.1 <= |s| - pos
  {
    if StartsWith(s, pos, "<int>") then Some((INT, 5))
    else if StartsWith(s, pos, "<uint>") then Some((UINT, 6))
    else if StartsWith(s, pos, "<float>") then Some((DOUBLE, 7))
    else if StartsWith(s, pos, "<double>") then Some((DOUBLE, 8))
    else if StartsWith(s, pos, "<str>") then Some((STRING, 5))
    else if StartsWith(s, pos, "<string>") then Some((STRING, 8))
    else if StartsWith(s, pos, "<path>") then Some((PATH, 6))
    else None
  }

  /** Every '<' starts a tag of the table, and there is no NUL character. */
  predicate WellFormed(s: string, pos: nat)
    decreases |s| - pos
  {
    if pos >= |s| then true
    else if s[pos] == '<' then TagAt(s, pos).Some? && WellFormed(s, pos + TagAt(s, pos).value.1)
    else s[pos] != '\0' && WellFormed(s, pos + 1)
  }

  function Tokens(s: string, pos: nat): seq<Token>
    requires WellFormed(s, pos)
    decreases |s| - pos
  {
    if pos >= |s| then []
    else if s[pos] == '<' then
      var tag := TagAt(s, pos).value;
      [Typed(tag.0)] + Tokens(s, pos + tag.1)
    else [Literal(s[pos])] + Tokens(s, pos + 1)
  }

  // Captures.

  datatype Capture = Int(int_: int) | Uint(uint: nat) | Double(double_: real) | Str(str: string)

  /** How much of the text a number takes, and its value. */
  type Number = Option<(nat, real)>

  /** What strtod makes of a text: a part that is not empty, if anything. */
  type Strtod = f: string -> Number | forall s :: f(s).Some? ==> 0 < f(s).value.0 <= |s|
    witness _ => None

  predicate IsDigit(c: char) { '0' <= c <= '9' }

  function DigitsEnd(s: string, pos: nat): (end: nat)
    requires pos <= |s|
    ensures pos <= end <= |s|
    decreases |s| - pos
  {
    if pos < |s| && IsDigit(s[pos]) then DigitsEnd(s, pos + 1) else pos
  }

  function DigitsValue(s: string, pos: nat, end: nat): nat
    requires pos <= end <= |s| && forall i :: pos <= i < end ==> IsDigit(s[i])
    decreases end - pos
  {
    if pos == end then 0
    else
      assert IsDigit(s[end - 1]);
      10 * DigitsValue(s, pos, end - 1) + (s[end - 1] as int - '0' as int)
  }

  lemma {:induction false} DigitsAre(s: string, pos: nat)
    requires pos <= |s|
    ensures forall i :: pos <= i < DigitsEnd(s, pos) ==> IsDigit(s[i])
    decreases |s| - pos
  {
    if pos < |s| && IsDigit(s[pos]) {
      DigitsAre(s, pos + 1);
    }
  }

  /** strtoll and strtoull in base ten, where no white space comes first: a sign,
      then as many digits as there are; nothing without digits or out of range. */
  function Integer(s: string, pos: nat, min: int, max: int): (r: Option<(nat, int)>)
    requires pos < |s|
    ensures r.Some? ==> pos < r.value.0 <= |s| && min <= r.value.1 <= max
  {
    var start := if s[pos] == '+' || s[pos] == '-' then pos + 1 else pos;
    var end := DigitsEnd(s, start);
    DigitsAre(s, start);
    var n := DigitsValue(s, start, end);
    var value: int := if s[pos] == '-' then -(n as int) else n;
    if end == start || !(min <= value <= max) then None else Some((end, value))
  }

  function SlashFrom(s: string, pos: nat): (end: nat)
    requires pos <= |s|
    ensures pos <= end <= |s|
    decreases |s| - pos
  {
    if pos < |s| && s[pos] != '/' then SlashFrom(s, pos + 1) else pos
  }

  /** What a typed part of a pattern takes of the URL at `pos`: where it ends and
      what it captures. It takes as much as it can, and always something. */
  function Take(f: Strtod, param: ParamType, url: string, pos: nat): (r: Option<(nat, Capture)>)
    requires pos < |url|
    ensures r.Some? ==> pos < r.value.0 <= |url|
  {
    var c := url[pos];
    match param
    case INT =>
      var n := Integer(url, pos, MIN_INT64, MAX_INT64);
      if (IsDigit(c) || c == '+' || c == '-') && n.Some? then Some((n.value.0, Int(n.value.1))) else None
    case UINT =>
      var n := Integer(url, pos, 0, MAX_UINT64);
      if (IsDigit(c) || c == '+') && n.Some? then Some((n.value.0, Uint(n.value.1))) else None
    case DOUBLE =>
      var n := f(url[pos..]);
      if (IsDigit(c) || c == '+' || c == '-' || c == '.') && n.Some?
      then Some((pos + n.value.0, Double(n.value.1))) else None
    case STRING =>
      var end := SlashFrom(url, pos);
      if end != pos then Some((end, Str(url[pos..end]))) else None
    case PATH => Some((|url|, Str(url[pos..])))
    case MAX => None
  }

  // The reference: one pattern against one URL.

  function Matches(f: Strtod, ts: seq<Token>, url: string, pos: nat): Option<seq<Capture>>
    requires pos <= |url|
    decreases |ts|
  {
    if ts == [] then (if pos == |url| then Some([]) else None)
    else if pos == |url| then None
    else match ts[0]
      case Literal(ch) => if url[pos] == ch then Matches(f, ts[1..], url, pos + 1) else None
      case Typed(param) =>
        var t := Take(f, param, url, pos);
        if t.None? then None
        else
          var rest := Matches(f, ts[1..], url, t.value.0);
          if rest.None? then None else Some([t.value.1] + rest.value)
  }

  // The tree.

  /** What the URL must spell out on the way into a node. */
  function Label(n: Node): seq<Token> {
    if n.param != MAX then [Typed(n.param)] else Literals(n.key)
  }

  /** The tree below `n` holds the rule under the pattern. */
  ghost predicate Holds(n: Node, ts: seq<Token>, rule: nat)
    decreases n, 1
  {
    || (ts == [] && rule == n.rule && rule != 0)
    || exists k :: 0 <= k < |n.children| && HoldsBelow(n, k, ts, rule)
  }

  ghost predicate HoldsBelow(n: Node, k: nat, ts: seq<Token>, rule: nat)
    requires k < |n.children|
    decreases n, 0
  {
    var c := n.children[k];
    Label(c) <= ts && Holds(c, ts[|Label(c)|..], rule)
  }

  /** No node but the root is without a label. */
  ghost predicate Labelled(n: Node) {
    forall k :: 0 <= k < |n.children| ==> Label(n.children[k]) != [] && Labelled(n.children[k])
  }

  // The search.

  datatype Match = NoMatch | Match(rule: nat, captures: seq<Capture>)

  /** The one with the smaller rule; the earlier one if they are equal. */
  function Better(a: Match, b: Match): Match {
    if b.NoMatch? then a
    else if a.NoMatch? || b.rule < a.rule then b
    else a
  }

  function Captured(captures: seq<Capture>, m: Match): Match {
    if m.NoMatch? then m else Match(m.rule, captures + m.captures)
  }

  function FindIn(f: Strtod, n: Node, url: string, pos: nat): (m: Match)
    requires pos <= |url|
    ensures m.Match? ==> m.rule != 0
    decreases n, |n.children| + 1
  {
    if pos == |url| then (if n.rule == 0 then NoMatch else Match(n.rule, []))
    else Best(f, n, |n.children|, url, pos)
  }

  /** The best match below the first `k` children. */
  function Best(f: Strtod, n: Node, k: nat, url: string, pos: nat): (m: Match)
    requires k <= |n.children| && pos < |url|
    ensures m.Match? ==> m.rule != 0
    decreases n, k
  {
    if k == 0 then NoMatch
    else Better(Best(f, n, k - 1, url, pos), Try(f, n.children[k - 1], url, pos))
  }

  function Try(f: Strtod, c: Node, url: string, pos: nat): (m: Match)
    requires pos < |url|
    ensures m.Match? ==> m.rule != 0
    decreases c, |c.children| + 2
  {
    if c.param != MAX then
      var t := Take(f, c.param, url, pos);
      if t.None? then NoMatch else Captured([t.value.1], FindIn(f, c, url, t.value.0))
    else if StartsWith(url, pos, c.key) then FindIn(f, c, url, pos + |c.key|)
    else NoMatch
  }

  lemma {:induction false} MatchesLiterals(f: Strtod, key: string, ts: seq<Token>, url: string, pos: nat)
    requires pos <= |url|
    ensures Matches(f, Literals(key) + ts, url, pos)
            == if StartsWith(url, pos, key) then Matches(f, ts, url, pos + |key|) else None
    decreases |key|
  {
    if key == "" {
      assert Literals(key) + ts == ts;
    } else {
      var all := Literals(key) + ts;
      assert all[0] == Literal(key[0]) && all[1..] == Literals(key[1..]) + ts;
      if pos < |url| {
        MatchesLiterals(f, key[1..], ts, url, pos + 1);
        StartsWithMore(url, pos, key);
      }
    }
  }

  lemma {:induction false} StartsWithMore(url: string, pos: nat, key: string)
    requires key != "" && pos < |url|
    ensures StartsWith(url, pos, key) <==> url[pos] == key[0] && StartsWith(url, pos + 1, key[1..])
  {
    assert key == [key[0]] + key[1..];
    if pos + |key| <= |url| {
      assert url[pos..pos + |key|] == [url[pos]] + url[pos + 1..pos + |key|];
    }
  }

  /** Matching a pattern that starts with the label of a node. */
  lemma {:induction false} MatchesLabel(f: Strtod, c: Node, ts: seq<Token>, url: string, pos: nat)
    requires pos < |url|
    ensures Matches(f, Label(c) + ts, url, pos)
            == if c.param != MAX then
                 var t := Take(f, c.param, url, pos);
                 if t.None? then None
                 else
                   var rest := Matches(f, ts, url, t.value.0);
                   if rest.None? then None else Some([t.value.1] + rest.value)
               else if StartsWith(url, pos, c.key) then Matches(f, ts, url, pos + |c.key|)
               else None
  {
    if c.param == MAX {
      MatchesLiterals(f, c.key, ts, url, pos);
    } else {
      var all := [Typed(c.param)] + ts;
      assert all[0] == Typed(c.param) && all[1..] == ts;
    }
  }

  /** The search finds a rule of the tree that matches, with what it captures. */
  lemma {:induction false} FoundMatches(f: Strtod, n: Node, url: string, pos: nat) returns (ts: seq<Token>)
    requires pos <= |url| && FindIn(f, n, url, pos).Match?
    ensures var m := FindIn(f, n, url, pos);
            Holds(n, ts, m.rule) && Matches(f, ts, url, pos) == Some(m.captures)
    decreases n, |n.children| + 1
  {
    if pos < |url| {
      ts := BestMatches(f, n, |n.children|, url, pos);
    } else {
      ts := [];
    }
  }

  lemma {:induction false} BestMatches(f: Strtod, n: Node, k: nat, url: string, pos: nat) returns (ts: seq<Token>)
    requires pos < |url| && k <= |n.children| && Best(f, n, k, url, pos).Match?
    ensures var m := Best(f, n, k, url, pos);
            Holds(n, ts, m.rule) && Matches(f, ts, url, pos) == Some(m.captures)
    decreases n, k
  {
    var c := n.children[k - 1];
    if Best(f, n, k, url, pos) != Try(f, c, url, pos) {
      ts := BestMatches(f, n, k - 1, url, pos);
    } else {
      var rest := TryMatches(f, c, url, pos);
      HoldsIn(n, k - 1, rest, Try(f, c, url, pos).rule);
      ts := Label(c) + rest;
    }
  }

  lemma {:induction false} TryMatches(f: Strtod, c: Node, url: string, pos: nat) returns (ts: seq<Token>)
    requires pos < |url| && Try(f, c, url, pos).Match?
    ensures var m := Try(f, c, url, pos);
            Holds(c, ts, m.rule) && Matches(f, Label(c) + ts, url, pos) == Some(m.captures)
    decreases c, |c.children| + 2
  {
    var end := if c.param != MAX then Take(f, c.param, url, pos).value.0 else pos + |c.key|;
    ts := FoundMatches(f, c, url, end);
    hide Take, Matches, FindIn, Holds, Label;
    MatchesLabel(f, c, ts, url, pos);
  }

  lemma {:induction false} HoldsIn(n: Node, k: nat, ts: seq<Token>, rule: nat)
    requires k < |n.children| && Holds(n.children[k], ts, rule)
    ensures Holds(n, Label(n.children[k]) + ts, rule)
  {
    var l := Label(n.children[k]);
    assert (l + ts)[|l|..] == ts;
    assert HoldsBelow(n, k, l + ts, rule);
  }

  /** No rule of the tree that matches is smaller than the one found. */
  lemma {:induction false} FoundIsLeast(f: Strtod, n: Node, url: string, pos: nat, ts: seq<Token>, rule: nat)
    requires pos <= |url| && Labelled(n)
    requires Holds(n, ts, rule) && Matches(f, ts, url, pos).Some?
    ensures FindIn(f, n, url, pos).Match? && FindIn(f, n, url, pos).rule <= rule
    decreases n, 1
  {
    if k :| 0 <= k < |n.children| && HoldsBelow(n, k, ts, rule) {
      assert Label(n.children[k]) != [];
      TryIsLeast(f, n.children[k], url, pos, ts, rule);
      BestIsLeast(f, n, |n.children|, url, pos, k);
    }
  }

  lemma {:induction false} TryIsLeast(f: Strtod, c: Node, url: string, pos: nat, ts: seq<Token>, rule: nat)
    requires pos < |url| && Labelled(c)
    requires Label(c) <= ts && Holds(c, ts[|Label(c)|..], rule) && Matches(f, ts, url, pos).Some?
    ensures Try(f, c, url, pos).Match? && Try(f, c, url, pos).rule <= rule
    decreases c, 2
  {
    hide Matches, Label, Take, FindIn, Holds, Labelled;
    var rest := ts[|Label(c)|..];
    assert ts == Label(c) + rest;
    MatchesLabel(f, c, rest, url, pos);
    var end := if c.param != MAX then Take(f, c.param, url, pos).value.0 else pos + |c.key|;
    FoundIsLeast(f, c, url, end, rest, rule);
  }

  lemma {:induction false} BestIsLeast(f: Strtod, n: Node, k: nat, url: string, pos: nat, i: nat)
    requires pos < |url| && i < k <= |n.children| && Try(f, n.children[i], url, pos).Match?
    ensures Best(f, n, k, url, pos).Match?
    ensures Best(f, n, k, url, pos).rule <= Try(f, n.children[i], url, pos).rule
    decreases k
  {
    if i < k - 1 {
      BestIsLeast(f, n, k - 1, url, pos, i);
    }
  }
}
