/** What compiling a Mustache template gives, as a function of its text, and the
    templates that a tree of blocks is written as. */
module MustacheCompile {
  import opened MustacheModel

  /** An exception makes a template invalid; a closing tag without an open block
      makes the compiler read where there is nothing. */
  datatype Failure = Invalid | Undefined

  datatype Parsed = Compiled | Failed(why: Failure)

  // Text.

  predicate StartsAt(s: string, i: nat, piece: string) {
    i + |piece| <= |s| && s[i..i + |piece|] == piece
  }

  /** The first place from `i` on where the piece is. */
  function Find(s: string, piece: string, i: nat): (r: Option<nat>)
    ensures r.Some? ==> i <= r.value && r.value + |piece| <= |s| && StartsAt(s, r.value, piece)
    ensures r.Some? ==> forall k :: i <= k < r.value ==> !StartsAt(s, k, piece)
    ensures r.None? ==> forall k :: i <= k ==> !StartsAt(s, k, piece)
    decreases |s| - i
  {
    if i + |piece| > |s| then None
    else if StartsAt(s, i, piece) then Some(i)
    else Find(s, piece, i + 1)
  }

  /** A string has a NUL behind its last character. */
  function CharAt(s: string, i: nat): char
    requires i <= |s|
  {
    if i < |s| then s[i] else '\0'
  }

  /** The first place from `i` on that has no space. */
  function Past(s: string, i: nat): (r: nat)
    requires i <= |s|
    ensures i <= r <= |s| && (r < |s| ==> s[r] != ' ') && forall k :: i <= k < r ==> s[k] == ' '
    decreases |s| - i
  {
    if i == |s| || s[i] != ' ' then i else Past(s, i + 1)
  }

  /** The last place up to `i` that has no space before it. */
  function Before(s: string, i: nat): (r: nat)
    requires i <= |s|
    ensures r <= i && (r > 0 ==> s[r - 1] != ' ') && forall k :: r <= k < i ==> s[k] == ' '
  {
    if i == 0 || s[i - 1] != ' ' then i else Before(s, i - 1)
  }

  /** The first place from `i` on that has a space. */
  function WordEnd(s: string, i: nat): (r: nat)
    requires i <= |s|
    ensures i <= r <= |s| && (r < |s| ==> s[r] == ' ') && forall k :: i <= k < r ==> s[k] != ' '
    decreases |s| - i
  {
    if i == |s| || s[i] == ' ' then i else WordEnd(s, i + 1)
  }

  /** The words of a text from `i` on, which spaces separate. */
  function WordsFrom(s: string, i: nat): (r: seq<string>)
    requires i <= |s|
    ensures forall k :: 0 <= k < |r| ==> DelimiterOk(r[k])
    decreases |s| - i
  {
    if i == |s| then []
    else if s[i] == ' ' then WordsFrom(s, i + 1)
    else [s[i..WordEnd(s, i)]] + WordsFrom(s, WordEnd(s, i))
  }

  function Words(s: string): seq<string> { WordsFrom(s, 0) }

  predicate DelimiterOk(d: string) { d != "" && forall k :: 0 <= k < |d| ==> d[k] != ' ' }

  lemma {:induction false} WordsPast(s: string, i: nat, j: nat)
    requires i <= j <= |s| && forall k :: i <= k < j ==> s[k] == ' '
    ensures WordsFrom(s, i) == WordsFrom(s, j)
    decreases j - i
  {
    if i < j {
      WordsPast(s, i + 1, j);
    }
  }

  /** Words from `a` to `n` and from `b` to the last place that is no space. */
  lemma {:induction false} TwoWords(s: string, a: nat, n: nat, b: nat, e: nat)
    requires a < n < b < e <= |s| && s[a] != ' ' && n == WordEnd(s, a)
    requires forall k :: 0 <= k < a || n <= k < b || e <= k < |s| ==> s[k] == ' '
    requires s[b] != ' ' && s[e - 1] != ' '
    ensures (|Words(s)| == 2) == (forall k :: b <= k < e ==> s[k] != ' ')
    ensures |Words(s)| == 2 ==> Words(s) == [s[a..n], s[b..e]]
  {
    WordsPast(s, 0, a);
    WordsPast(s, n, b);
    var m := WordEnd(s, b);
    assert Words(s) == [s[a..n]] + ([s[b..m]] + WordsFrom(s, m));
    if m < e {
      var j := Past(s, m);
      WordsPast(s, m, j);
      assert WordsFrom(s, j) != [];
    } else {
      assert e < |s| ==> s[e] == ' ';
      WordsPast(s, e, |s|);
    }
  }

  /** At most one word, from `a` to `e`. */
  lemma {:induction false} OneWord(s: string, a: nat, e: nat)
    requires a <= |s| && e <= |s| && forall k :: 0 <= k < a || e <= k < |s| ==> s[k] == ' '
    requires forall k :: a <= k < e ==> s[k] != ' '
    ensures |Words(s)| < 2
  {
    if e <= a {
      WordsPast(s, 0, |s|);
    } else {
      WordsPast(s, 0, a);
      assert e < |s| ==> s[e] == ' ';
      assert WordEnd(s, a) == e;
      WordsPast(s, e, |s|);
    }
  }

  predicate InText(body: string, a: Action) { a.start <= |body| && a.end <= |body| }

  predicate AllInText(body: string, actions: seq<Action>) {
    forall k :: 0 <= k < |actions| ==> InText(body, actions[k])
  }

  /** The name of an action; a name that would end before it starts goes on to the
      end of the template. */
  function Name(body: string, a: Action): string
    requires InText(body, a)
  {
    if a.start <= a.end then body[a.start..a.end] else body[a.start..]
  }

  lemma NameStays(body: string, a: Action, p: nat)
    requires InText(body, a)
    ensures Name(body, a.(pos := p)) == Name(body, a)
  {
  }

  // Tags.

  /** What a tag starts with says what it does. */
  function Kind(c: char): ActionType {
    match c
    case '#' => OpenBlock
    case '^' => ElseBlock
    case '/' => CloseBlock
    case '>' => Partial
    case '{' => UnescapeTag
    case '&' => UnescapeTag
    case '!' => Ignore
    case '=' => Ignore
    case _ => Tag
  }

  datatype Delimiters = Delimiters(open: string, close: string)

  predicate Usable(d: Delimiters) { DelimiterOk(d.open) && DelimiterOk(d.close) }

  /** The delimiters that a tag sets, if it does: two words between equals signs. */
  function Changed(inside: string, d: Delimiters): (r: Option<Delimiters>)
    requires inside != ""
    ensures r.Some? && Usable(d) ==> Usable(r.value)
  {
    if inside[0] != '=' then Some(d)
    else if |inside| < 2 || inside[|inside| - 1] != '=' then None
    else
      var w := Words(inside[1..|inside| - 1]);
      if |w| == 2 then Some(Delimiters(w[0], w[1])) else None
  }

  /** Where a tag ends that has what is between its delimiters in `idx..endIdx`: a
      tag in three braces only if it does. */
  function TagEnd(body: string, idx: nat, endIdx: nat, d: Delimiters): (r: Option<nat>)
    requires idx < endIdx && endIdx + |d.close| <= |body|
    ensures r.Some? ==> endIdx <= r.value <= |body|
  {
    if body[idx] != '{' then Some(endIdx + |d.close|)
    else if d == Delimiters("{{", "}}") && CharAt(body, endIdx + 2) == '}' then Some(endIdx + 3)
    else None
  }

  /** The action of a tag, not linked yet: its name is without the spaces around. */
  function ActionOf(body: string, idx: nat, endIdx: nat): (a: Action)
    requires idx < endIdx <= |body|
    ensures InText(body, a) && a.pos == 0
  {
    var t := Kind(body[idx]);
    if t == Ignore then Action(t, idx + 1, endIdx, 0)
    else Action(t, Past(body, if t == Tag then idx else idx + 1), Before(body, endIdx), 0)
  }

  /** The pieces of text, and what is between them, up to the first mistake. */
  datatype Lexed = Lexed(fragments: seq<(nat, nat)>, tags: seq<Action>, ok: bool)

  function Onto(fragment: (nat, nat), a: Action, rest: Lexed): Lexed {
    Lexed([fragment] + rest.fragments, [a] + rest.tags, rest.ok)
  }

  /** What is between two delimiters is a tag. */
  predicate IsTag(body: string, idx: nat, endIdx: nat, d: Delimiters)
    requires idx < endIdx && endIdx + |d.close| <= |body|
  {
    TagEnd(body, idx, endIdx, d).Some? && Changed(body[idx..endIdx], d).Some?
  }

  /** Where the first tag from `current` on is: its delimiter at `i`, what it holds in
      `idx..endIdx`, and what lies behind it from `end` on, with these delimiters. */
  datatype Place = NoTag | BadTag | At(i: nat, idx: nat, endIdx: nat, end: nat, next: Delimiters)

  function NextTag(body: string, current: nat, d: Delimiters): (r: Place)
    requires current <= |body| && Usable(d)
    ensures r.At? ==> current <= r.i < r.idx < r.endIdx <= r.end <= |body| && Usable(r.next)
  {
    match Find(body, d.open, current)
    case None => NoTag
    case Some(i) =>
      var idx := i + |d.open|;
      match Find(body, d.close, idx)
      case None => BadTag
      case Some(endIdx) =>
        if endIdx == idx || !IsTag(body, idx, endIdx, d) then BadTag
        else At(i, idx, endIdx, TagEnd(body, idx, endIdx, d).value, Changed(body[idx..endIdx], d).value)
  }

  function Lex(body: string, current: nat, d: Delimiters): (r: Lexed)
    requires current <= |body| && Usable(d)
    ensures AllInText(body, r.tags)
    decreases |body| - current
  {
    match NextTag(body, current, d)
    case NoTag => Lexed([(current, |body|)], [Action(Ignore, 0, 0, 0)], true)
    case BadTag => Lexed([], [], false)
    case At(i, idx, endIdx, end, next) => Onto((current, i), ActionOf(body, idx, endIdx), Lex(body, end, next))
  }

  // Links.

  datatype Linking = Links(actions: seq<Action>, open: seq<nat>) | Fails(why: Failure)

  predicate OpenOk(actions: seq<Action>, open: seq<nat>) {
    forall k :: 0 <= k < |open| ==> open[k] < |actions|
  }

  /** One more action. A closing tag closes the block opened last, if that has the
      same name. */
  function Link(body: string, actions: seq<Action>, open: seq<nat>, a: Action): (r: Linking)
    requires OpenOk(actions, open) && AllInText(body, actions) && InText(body, a)
    ensures r.Links? ==> OpenOk(r.actions, r.open) && AllInText(body, r.actions)
  {
    if IsBlock(a) then Links(actions + [a], open + [|actions|])
    else if a.t != CloseBlock then Links(actions + [a], open)
    else if open == [] then Fails(Undefined)
    else
      var last := open[|open| - 1];
      if Name(body, a) != Name(body, actions[last]) then Fails(Invalid)
      else
        var linked := actions[last].(pos := |actions|);
        Links(actions[last := linked] + [a.(pos := last)], open[..|open| - 1])
  }

  function LinkAll(body: string, actions: seq<Action>, open: seq<nat>, tags: seq<Action>): (r: Linking)
    requires OpenOk(actions, open) && AllInText(body, actions) && AllInText(body, tags)
    ensures r.Links? ==> OpenOk(r.actions, r.open) && AllInText(body, r.actions)
    decreases |tags|
  {
    if tags == [] then Links(actions, open)
    else
      var l := Link(body, actions, open, tags[0]);
      if l.Fails? then l else LinkAll(body, l.actions, l.open, tags[1..])
  }

  // Programs.

  datatype Program = Program(fragments: seq<(nat, nat)>, actions: seq<Action>, open: seq<nat>) | Rejected(why: Failure)

  /** What is compiled from `current` on, behind what is compiled already. */
  function CompileFrom(body: string, fragments: seq<(nat, nat)>, actions: seq<Action>, open: seq<nat>, current: nat,
                       d: Delimiters): Program
    requires current <= |body| && Usable(d) && OpenOk(actions, open) && AllInText(body, actions)
  {
    var lexed := Lex(body, current, d);
    match LinkAll(body, actions, open, lexed.tags)
    case Fails(why) => Rejected(why)
    case Links(linked, left) =>
      if lexed.ok then Program(fragments + lexed.fragments, linked, left) else Rejected(Invalid)
  }

  const START: Delimiters := Delimiters("{{", "}}")

  /** What a template is compiled to. */
  function Compile(body: string): Program {
    CompileFrom(body, [], [], [], 0, START)
  }

  // Compiling goes from tag to tag.

  lemma CompileStarts(body: string)
    ensures Usable(START) && OpenOk([], []) && AllInText(body, [])
    ensures Compile(body) == CompileFrom(body, [], [], [], 0, START)
  {
  }

  lemma {:induction false} CompileEnds(body: string, fragments: seq<(nat, nat)>, actions: seq<Action>, open: seq<nat>,
                                       current: nat, d: Delimiters)
    requires current <= |body| && Usable(d) && OpenOk(actions, open) && AllInText(body, actions)
    ensures NextTag(body, current, d).NoTag? ==>
              CompileFrom(body, fragments, actions, open, current, d)
              == Program(fragments + [(current, |body|)], actions + [Action(Ignore, 0, 0, 0)], open)
    ensures NextTag(body, current, d).BadTag? ==>
              CompileFrom(body, fragments, actions, open, current, d) == Rejected(Invalid)
  {
    hide NextTag, AllInText, DelimiterOk;
    assert [Action(Ignore, 0, 0, 0)][1..] == [];
  }

  /** Past one tag. */
  lemma {:induction false} CompileStep(body: string, fragments: seq<(nat, nat)>, actions: seq<Action>, open: seq<nat>,
                                       current: nat, d: Delimiters)
    requires current <= |body| && Usable(d) && OpenOk(actions, open) && AllInText(body, actions)
    requires NextTag(body, current, d).At?
    ensures CompileFrom(body, fragments, actions, open, current, d)
            == var tag := NextTag(body, current, d);
               match Link(body, actions, open, ActionOf(body, tag.idx, tag.endIdx))
               case Fails(why) => Rejected(why)
               case Links(linked, left) =>
                 CompileFrom(body, fragments + [(current, tag.i)], linked, left, tag.end, tag.next)
  {
    hide NextTag, ActionOf, Link, DelimiterOk, AllInText, OpenOk;
    var tag := NextTag(body, current, d);
    var rest, a := Lex(body, tag.end, tag.next), ActionOf(body, tag.idx, tag.endIdx);
    assert Lex(body, current, d) == Onto((current, tag.i), a, rest);
    assert ([a] + rest.tags)[1..] == rest.tags;
    assert fragments + ([(current, tag.i)] + rest.fragments) == fragments + [(current, tag.i)] + rest.fragments;
  }

  // What is compiled is linked.

  /** Each closing action has the number and the name of a block before it. */
  ghost predicate NamesMatch(body: string, actions: seq<Action>) {
    && AllInText(body, actions)
    && forall j :: 0 <= j < |actions| && actions[j].t == CloseBlock ==>
         var i := actions[j].pos;
         i < j && IsBlock(actions[i]) && actions[i].pos == j && Name(body, actions[i]) == Name(body, actions[j])
  }


  ghost predicate Linked(body: string, actions: seq<Action>, open: seq<nat>) {
    BalancedBut(actions, 0, open) && NamesMatch(body, actions) && OpenOk(actions, open)
  }

  lemma {:induction false} SingleAdded(actions: seq<Action>, lo: nat, open: seq<nat>, a: Action)
    requires BalancedBut(actions, lo, open) && !IsBlock(a) && a.t != CloseBlock
    ensures BalancedBut(actions + [a], lo, open)
  {
    var b, n := actions + [a], |actions|;
    var from := if open == [] then lo else open[|open| - 1] + 1;
    BalancedStays(actions, b, from, n);
    assert Balanced(b, n + 1, n + 1);
    BalancedConcat(b, from, n, n + 1);
    if open != [] {
      assert b[..open[|open| - 1]] == actions[..open[|open| - 1]];
    }
  }

  lemma {:induction false} LastClosed(actions: seq<Action>, lo: nat, open: seq<nat>, a: Action)
    requires BalancedBut(actions, lo, open) && open != [] && a.t == CloseBlock && a.pos == open[|open| - 1] < |actions|
    ensures BalancedBut(actions[a.pos := actions[a.pos].(pos := |actions|)] + [a], lo, open[..|open| - 1])
  {
    var n, last, outer := |actions|, open[|open| - 1], open[..|open| - 1];
    var b := actions[last := actions[last].(pos := n)] + [a];
    var from := if outer == [] then lo else outer[|outer| - 1] + 1;
    BalancedStays(actions[..last], b, from, last);
    BalancedStays(actions, b, last + 1, n);
    assert Balanced(b, n + 1, n + 1);
    assert Balanced(b, last, n + 1);
    BalancedConcat(b, from, last, n + 1);
    if outer != [] {
      assert b[..outer[|outer| - 1]] == actions[..last][..outer[|outer| - 1]];
    }
  }

  /** One more action keeps all links. */
  lemma {:induction false} LinkKeeps(body: string, actions: seq<Action>, open: seq<nat>, a: Action)
    requires Linked(body, actions, open) && InText(body, a) && a.pos == 0
    ensures var r := Link(body, actions, open, a);
            r.Links? ==> |r.actions| == |actions| + 1 && Linked(body, r.actions, r.open)
  {
    if Link(body, actions, open, a).Links? {
      NamesKept(body, actions, open, a);
      hide NamesMatch, OpenOk;
      if IsBlock(a) {
        BlockAdded(actions, open, a);
      } else if a.t != CloseBlock {
        SingleAdded(actions, 0, open, a);
      } else {
        LastClosed(actions, 0, open, a.(pos := open[|open| - 1]));
      }
      hide BalancedBut;
    }
  }

  lemma {:induction false} NamesKept(body: string, actions: seq<Action>, open: seq<nat>, a: Action)
    requires Linked(body, actions, open) && InText(body, a) && Link(body, actions, open, a).Links?
    ensures NamesMatch(body, Link(body, actions, open, a).actions)
  {
    if open != [] {
      LastOpen(actions, open);
    }
    hide BalancedBut;
  }

  /** A block still open is not linked. */
  lemma LastOpen(actions: seq<Action>, open: seq<nat>)
    requires BalancedBut(actions, 0, open) && open != []
    ensures var last := open[|open| - 1];
            last < |actions| && IsBlock(actions[last]) && actions[last].pos == 0
  {
  }

  lemma {:induction false} BlockAdded(actions: seq<Action>, open: seq<nat>, a: Action)
    requires BalancedBut(actions, 0, open) && IsBlock(a) && a.pos == 0
    ensures BalancedBut(actions + [a], 0, open + [|actions|])
  {
    assert (actions + [a])[..|actions|] == actions && (open + [|actions|])[..|open|] == open;
  }

  lemma {:induction false} LinkAllKeeps(body: string, actions: seq<Action>, open: seq<nat>, tags: seq<Action>)
    requires Linked(body, actions, open) && AllInText(body, tags)
    requires forall k :: 0 <= k < |tags| ==> tags[k].pos == 0
    ensures var r := LinkAll(body, actions, open, tags);
            r.Links? ==> |r.actions| == |actions| + |tags| && Linked(body, r.actions, r.open)
    decreases |tags|
  {
    if tags != [] {
      LinkKeeps(body, actions, open, tags[0]);
      hide NamesMatch, BalancedBut, Link;
      var l := Link(body, actions, open, tags[0]);
      if l.Links? {
        LinkAllKeeps(body, l.actions, l.open, tags[1..]);
      }
    }
  }

  /** The text behind the last tag is a piece of its own. */
  lemma {:induction false} LinkAllEnds(body: string, actions: seq<Action>, open: seq<nat>, tags: seq<Action>, end: Action)
    requires OpenOk(actions, open) && AllInText(body, actions) && AllInText(body, tags) && InText(body, end)
    requires end.t == Ignore
    ensures LinkAll(body, actions, open, tags + [end])
            == match LinkAll(body, actions, open, tags)
               case Fails(why) => Fails(why)
               case Links(linked, left) => Links(linked + [end], left)
    decreases |tags|
  {
    if tags == [] {
      assert (tags + [end])[1..] == [];
    } else {
      hide Link, AllInText, OpenOk;
      var l := Link(body, actions, open, tags[0]);
      assert (tags + [end])[0] == tags[0] && (tags + [end])[1..] == tags[1..] + [end];
      if l.Links? {
        LinkAllEnds(body, l.actions, l.open, tags[1..], end);
      }
    }
  }

  /** The pieces of text lie one behind the other, from `from` up to `to`. */
  predicate InOrder(fragments: seq<(nat, nat)>, from: nat, to: nat) {
    && (forall i :: 0 <= i < |fragments| ==> from <= fragments[i].0 <= fragments[i].1 <= to)
    && forall i, j :: 0 <= i < j < |fragments| ==> fragments[i].1 <= fragments[j].0
  }

  /** The pieces of text themselves. */
  function TextsOf(body: string, fragments: seq<(nat, nat)>): seq<string>
    requires InOrder(fragments, 0, |body|)
  {
    seq(|fragments|, i requires 0 <= i < |fragments| => body[fragments[i].0..fragments[i].1])
  }

  ghost predicate LexedOk(r: Lexed, from: nat, to: nat) {
    && (forall k :: 0 <= k < |r.tags| ==> r.tags[k].pos == 0)
    && (r.ok ==>
          && |r.tags| == |r.fragments| > 0 && InOrder(r.fragments, from, to)
          && r.fragments[|r.fragments| - 1].1 == to && r.tags[|r.tags| - 1] == END)
  }

  lemma LexedMore(r: Lexed, from: nat, i: nat, next: nat, to: nat, a: Action)
    requires LexedOk(r, next, to) && from <= i <= next && i <= to && a.pos == 0
    ensures LexedOk(Onto((from, i), a, r), from, to)
  {
    var fragments, tags := [(from, i)] + r.fragments, [a] + r.tags;
    assert forall k :: 1 <= k < |fragments| ==> fragments[k] == r.fragments[k - 1];
    assert forall k :: 1 <= k < |tags| ==> tags[k] == r.tags[k - 1];
  }

  lemma {:induction false} LexIsInOrder(body: string, current: nat, d: Delimiters)
    requires current <= |body| && Usable(d)
    ensures LexedOk(Lex(body, current, d), current, |body|)
    decreases |body| - current
  {
    hide NextTag, DelimiterOk, AllInText;
    var tag := NextTag(body, current, d);
    if tag.At? {
      hide LexedOk, Onto;
      LexIsInOrder(body, tag.end, tag.next);
      LexedMore(Lex(body, tag.end, tag.next), current, tag.i, tag.end, |body|, ActionOf(body, tag.idx, tag.endIdx));
    }
  }

  lemma NothingLinked(body: string)
    ensures Linked(body, [], [])
  {
  }

  const END: Action := Action(Ignore, 0, 0, 0)

  lemma {:induction false} ProgramIs(body: string, n: nat)
    requires Usable(START) && OpenOk([], []) && AllInText(body, [])
    requires var r := Lex(body, 0, START);
             r.ok && |r.tags| == n + 1 && r.tags[n] == END
    ensures var r := Lex(body, 0, START);
            && AllInText(body, r.tags[..n])
            && Compile(body) == match LinkAll(body, [], [], r.tags[..n])
                                case Fails(why) => Rejected(why)
                                case Links(linked, left) => Program(r.fragments, linked + [END], left)
  {
    hide Lex, LinkAll, Compile, OpenOk, DelimiterOk;
    var r := Lex(body, 0, START);
    assert r.tags == r.tags[..n] + [END] && [] + r.fragments == r.fragments;
    CompileStarts(body);
    LinkAllEnds(body, [], [], r.tags[..n], END);
  }

  /** What is compiled: the pieces of text in order, up to the end of the template;
      and every block that is closed linked with its closing tag, of the same name. */
  lemma {:induction false} CompiledIsLinked(body: string)
    requires Compile(body).Program?
    ensures var p := Compile(body);
            && |p.fragments| == |p.actions| > 0 && InOrder(p.fragments, 0, |body|)
            && p.fragments[|p.fragments| - 1].1 == |body| && p.actions[|p.actions| - 1] == END
            && Linked(body, p.actions[..|p.actions| - 1], p.open)
  {
    CompileStarts(body);
    hide Lex, LinkAll, Linked, InOrder, AllInText, OpenOk, Compile;
    LexIsInOrder(body, 0, START);
    var r := Lex(body, 0, START);
    if r.ok {
      var n := |r.tags| - 1;
      ProgramIs(body, n);
      NothingLinked(body);
      LinkAllKeeps(body, [], [], r.tags[..n]);
    } else {
      NotOk(body);
    }
  }

  lemma NotOk(body: string)
    requires Usable(START) && OpenOk([], []) && AllInText(body, []) && !Lex(body, 0, START).ok
    ensures Compile(body).Rejected?
  {
    hide Lex, LinkAll;
  }

  /** What a template without open blocks means: what its tree of blocks does. */
  ghost function Rendered<C>(env: Env<C>, body: string, stack: seq<C>): Outcome
    requires Compile(body).Program?
  {
    CompiledIsLinked(body);
    var p := Compile(body);
    var texts, n := TextsOf(body, p.fragments), |p.actions| - 1;
    Meanings(env, Tree(texts, p.actions, 0, n) + [Text(texts[n])], stack)
  }
}
