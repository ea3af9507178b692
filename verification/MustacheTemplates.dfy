/** The templates that trees of blocks are written as: each compiles, and what is
    compiled means what the tree does. */
module MustacheTemplates {
  import Sequences
  import opened MustacheCompile
  import opened MustacheModel

  /** A tag with the text before it. A block has one tag at each end and, inside,
      other parts and the text before its closing tag. */
  datatype Part =
    | Lone(text: string, inside: string)
    | Block(text: string, inside: string, kids: seq<Part>, last: string, closing: string)

  /** A tag, between its delimiters, and the text before it. */
  datatype Token = Token(text: string, inside: string)

  // Writing.

  function Flat(p: Part): seq<Token>
    decreases p, 1
  {
    match p
    case Lone(text, inside) => [Token(text, inside)]
    case Block(text, inside, kids, last, closing) =>
      [Token(text, inside)] + FlatAll(kids) + [Token(last, closing)]
  }

  function FlatAll(parts: seq<Part>): seq<Token>
    decreases parts, 0
  {
    if parts == [] then [] else Flat(parts[0]) + FlatAll(parts[1..])
  }

  /** The delimiters behind a tag. */
  function Behind(inside: string, d: Delimiters): Delimiters {
    if inside != "" && Changed(inside, d).Some? then Changed(inside, d).value else d
  }

  /** Tags in three braces end in a third one. */
  function Third(inside: string): string {
    if inside != "" && inside[0] == '{' then "}" else ""
  }

  function Written(tokens: seq<Token>, last: string, d: Delimiters): string {
    if tokens == [] then last
    else
      var t := tokens[0];
      (t.text + d.open) + (t.inside + d.close) + (Third(t.inside) + Written(tokens[1..], last, Behind(t.inside, d)))
  }

  /** The delimiter behind a text is the first one from the beginning of the text. */
  predicate Clear(s: string, delimiter: string) { Find(s + delimiter, delimiter, 0) == Some(|s|) }

  /** What a tag says behind the character that tells its kind. */
  function Said(inside: string): string
    requires inside != ""
  {
    if Kind(inside[0]) == Tag then inside else inside[1..]
  }

  /** The name of a tag, without the spaces around. */
  function Bare(inside: string): string
    requires inside != ""
  {
    var s := Said(inside);
    if Past(s, 0) <= Before(s, |s|) then s[Past(s, 0)..Before(s, |s|)] else ""
  }

  /** A tag that says what it should: not spaces only, new delimiters if it is to
      change them, and three braces only between the usual ones. */
  predicate TagOk(inside: string, d: Delimiters) {
    && inside != "" && Clear(inside, d.close) && Changed(inside, d).Some?
    && (inside[0] == '{' ==> d == START)
    && (Kind(inside[0]) == Ignore || Said(inside) == "" || Past(Said(inside), 0) < |Said(inside)|)
  }

  predicate Legible(tokens: seq<Token>, last: string, d: Delimiters) {
    if tokens == [] then Find(last, d.open, 0).None?
    else
      && Clear(tokens[0].text, d.open) && TagOk(tokens[0].inside, d)
      && Legible(tokens[1..], last, Behind(tokens[0].inside, d))
  }

  // Reading back what was written.

  lemma {:induction false} FindIn(body: string, i: nat, s: string, piece: string)
    requires i + |s| + |piece| <= |body| && body[i..i + |s| + |piece|] == s + piece && Clear(s, piece)
    ensures Find(body, piece, i) == Some(i + |s|)
  {
    var t := s + piece;
    forall k | 0 <= k <= |s| ensures StartsAt(body, i + k, piece) == StartsAt(t, k, piece) {
      assert body[i..i + |t|][k..k + |piece|] == body[i + k..i + k + |piece|] by {
        Slice(body, i, i + |t|, k, k + |piece|);
      }
    }
    assert StartsAt(body, i + |s|, piece);
    var r := Find(body, piece, i).value;
    assert StartsAt(t, r - i, piece);
  }

  lemma {:induction false} FindNone(body: string, i: nat, s: string, piece: string)
    requires i <= |body| && body[i..] == s && Find(s, piece, 0).None?
    ensures Find(body, piece, i).None?
  {
    if Find(body, piece, i).Some? {
      var r := Find(body, piece, i).value;
      Slice(body, i, |body|, r - i, r - i + |piece|);
      assert StartsAt(s, r - i, piece);
    }
  }

  lemma Slice(s: string, a: nat, b: nat, c: nat, d: nat)
    requires a <= b <= |s| && c <= d <= b - a
    ensures s[a..b][c..d] == s[a + c..a + d]
  {
    forall k | 0 <= k < d - c ensures s[a..b][c..d][k] == s[a + c..a + d][k] {
      assert s[a..b][c..d][k] == s[a..b][c + k];
    }
  }

  /** An action is the one that a tag was written for. */
  predicate Fits(body: string, a: Action, t: Token) {
    && t.inside != "" && InText(body, a) && a.pos == 0 && a.t == Kind(t.inside[0])
    && (a.t != Ignore ==> Name(body, a) == Bare(t.inside))
  }

  predicate AllFit(body: string, tags: seq<Action>, tokens: seq<Token>) {
    |tags| == |tokens| && forall k :: 0 <= k < |tags| ==> Fits(body, tags[k], tokens[k])
  }

  lemma {:induction false} PastIs(s: string, i: nat, r: nat)
    requires i <= r <= |s| && (r < |s| ==> s[r] != ' ') && forall k :: i <= k < r ==> s[k] == ' '
    ensures Past(s, i) == r
    decreases r - i
  {
    if i < r {
      PastIs(s, i + 1, r);
    }
  }

  lemma {:induction false} BeforeIs(s: string, i: nat, r: nat)
    requires r <= i <= |s| && (r > 0 ==> s[r - 1] != ' ') && forall k :: r <= k < i ==> s[k] == ' '
    ensures Before(s, i) == r
    decreases i
  {
    if r < i {
      BeforeIs(s, i - 1, r);
    }
  }

  lemma SameThere(body: string, from: nat, to: nat, s: string)
    requires from <= to <= |body| && body[from..to] == s
    ensures forall k :: from <= k < to ==> body[k] == s[k - from]
  {
  }

  /** The spaces around a name, in the template and by themselves. */
  lemma {:induction false} Trimmed(body: string, from: nat, to: nat, s: string)
    requires 0 < from <= to < |body| && body[from - 1] != ' ' && body[to] != ' ' && body[from..to] == s
    requires s == "" || Past(s, 0) < |s|
    ensures Past(body, from) == from + Past(s, 0) && Before(body, to) == from + Before(s, |s|)
    ensures Past(s, 0) <= Before(s, |s|)
    ensures body[from + Past(s, 0)..from + Before(s, |s|)] == s[Past(s, 0)..Before(s, |s|)]
  {
    var a, e := Past(s, 0), Before(s, |s|);
    SameThere(body, from, to, s);
    PastIs(body, from, from + a);
    BeforeIs(body, to, from + e);
    Slice(body, from, to, a, e);
  }

  /** What a tag says, in the template. */
  lemma SaidThere(body: string, idx: nat, endIdx: nat, inside: string)
    requires 0 < idx < endIdx < |body| && body[idx..endIdx] == inside
    ensures body[idx] == inside[0]
    ensures body[(if Kind(inside[0]) == Tag then idx else idx + 1)..endIdx] == Said(inside)
  {
    Slice(body, idx, endIdx, 1, endIdx - idx);
    assert inside[1..endIdx - idx] == inside[1..];
  }

  lemma {:induction false} ActionFits(body: string, idx: nat, endIdx: nat, t: Token, d: Delimiters)
    requires 0 < idx < endIdx < |body| && body[idx..endIdx] == t.inside && TagOk(t.inside, d)
    requires body[idx - 1] != ' ' && body[endIdx] != ' '
    ensures Fits(body, ActionOf(body, idx, endIdx), t)
  {
    SaidThere(body, idx, endIdx, t.inside);
    NotSpaced(t.inside[0]);
    var a, from := ActionOf(body, idx, endIdx), if Kind(t.inside[0]) == Tag then idx else idx + 1;
    if Kind(t.inside[0]) != Ignore {
      hide Clear, Changed, Kind, Said;
      NameIs(body, a, from, endIdx, Said(t.inside));
    }
  }

  lemma NotSpaced(c: char)
    ensures c == ' ' ==> Kind(c) == Tag
  {
  }

  lemma {:induction false} NameIs(body: string, a: Action, from: nat, to: nat, s: string)
    requires 0 < from <= to < |body| && body[from - 1] != ' ' && body[to] != ' ' && body[from..to] == s
    requires s == "" || Past(s, 0) < |s|
    requires InText(body, a) && a.start == Past(body, from) && a.end == Before(body, to)
    ensures Past(s, 0) <= Before(s, |s|) && Name(body, a) == s[Past(s, 0)..Before(s, |s|)]
  {
    Trimmed(body, from, to, s);
  }

  /** Where the pieces of a first tag are. */
  lemma {:induction false} Layout(body: string, current: nat, t: Token, rest: string, d: Delimiters)
    requires current <= |body| && t.inside != ""
    requires body[current..] == (t.text + d.open) + (t.inside + d.close) + (Third(t.inside) + rest)
    ensures var i := current + |t.text|;
            var idx := i + |d.open|;
            var endIdx := idx + |t.inside|;
            var end := endIdx + |d.close|;
            && end <= |body| && body[current..i] == t.text && body[current..idx] == t.text + d.open
            && body[idx..endIdx] == t.inside && body[idx..end] == t.inside + d.close
            && body[end..] == Third(t.inside) + rest
  {
    var a, b, c := t.text + d.open, t.inside + d.close, Third(t.inside) + rest;
    Apart(body, current, a, b, c);
    Slice(body, current, current + |a|, 0, |t.text|);
    Slice(body, current + |a|, current + |a| + |b|, 0, |t.inside|);
    assert a[..|t.text|] == t.text && b[..|t.inside|] == t.inside;
  }

  lemma {:induction false} EndIsFound(body: string, idx: nat, endIdx: nat, inside: string, rest: string, d: Delimiters)
    requires idx < endIdx && endIdx + |d.close| <= |body| && body[idx..endIdx] == inside
    requires inside[0] == '{' ==> d == START
    requires body[endIdx + |d.close|..] == Third(inside) + rest
    ensures TagEnd(body, idx, endIdx, d) == Some(endIdx + |d.close| + |Third(inside)|)
    ensures body[endIdx + |d.close| + |Third(inside)|..] == rest
  {
    var end := endIdx + |d.close|;
    assert inside[0] == body[idx];
    assert |body| == end + |Third(inside)| + |rest|;
    if inside[0] == '{' {
      assert body[end..][0] == body[end] == '}';
    }
    Slice(body, end, |body|, |Third(inside)|, |body| - end);
    assert body[end..][|Third(inside)|..] == rest;
  }

  lemma {:induction false} NextTagIs(body: string, current: nat, d: Delimiters, i: nat, endIdx: nat, end: nat, next: Delimiters)
    requires current <= |body| && Usable(d)
    requires Find(body, d.open, current) == Some(i) && Find(body, d.close, i + |d.open|) == Some(endIdx)
    requires i + |d.open| < endIdx && TagEnd(body, i + |d.open|, endIdx, d) == Some(end)
    requires Changed(body[i + |d.open|..endIdx], d) == Some(next)
    ensures NextTag(body, current, d) == At(i, i + |d.open|, endIdx, end, next)
  {
    hide Find, TagEnd, Changed, StartsAt, DelimiterOk;
  }

  lemma {:induction false} DelimiterIsFound(body: string, i: nat, to: nat, s: string, d: string)
    requires i <= to <= |body| && body[i..to] == s + d && Clear(s, d) && DelimiterOk(d)
    ensures i + |s| < to && Find(body, d, i) == Some(i + |s|) && body[i + |s|] != ' ' && body[to - 1] != ' '
  {
    assert |body[i..to]| == to - i == |s| + |d|;
    FindIn(body, i, s, d);
    Edges(body, i, s, d);
  }

  lemma {:induction false} DelimitersAreFound(body: string, current: nat, t: Token, rest: string, d: Delimiters)
    requires current <= |body| && Usable(d) && TagOk(t.inside, d) && Clear(t.text, d.open)
    requires body[current..] == (t.text + d.open) + (t.inside + d.close) + (Third(t.inside) + rest)
    ensures var idx := current + |t.text| + |d.open|;
            && 0 < idx < idx + |t.inside| < |body|
            && Find(body, d.open, current) == Some(current + |t.text|) && Find(body, d.close, idx) == Some(idx + |t.inside|)
            && body[idx - 1] != ' ' && body[idx + |t.inside|] != ' '
  {
    hide Clear, Find, StartsAt, DelimiterOk, Third, Changed, Kind, Said;
    var idx := current + |t.text| + |d.open|;
    Layout(body, current, t, rest, d);
    DelimiterIsFound(body, current, idx, t.text, d.open);
    DelimiterIsFound(body, idx, idx + |t.inside| + |d.close|, t.inside, d.close);
  }

  /** A first tag that was written is found where it was written. */
  lemma {:induction false} TagIsFound(body: string, current: nat, t: Token, rest: string, d: Delimiters)
    requires current <= |body| && Usable(d) && TagOk(t.inside, d) && Clear(t.text, d.open)
    requires body[current..] == (t.text + d.open) + (t.inside + d.close) + (Third(t.inside) + rest)
    ensures var tag := NextTag(body, current, d);
            && tag.At? && body[current..tag.i] == t.text && tag.next == Behind(t.inside, d) && body[tag.end..] == rest
            && Fits(body, ActionOf(body, tag.idx, tag.endIdx), t)
  {
    hide Clear, Find, Fits, DelimiterOk, WordsFrom, TagEnd, ActionOf, Third, Changed, StartsAt, Kind, Said, NextTag;
    var idx := current + |t.text| + |d.open|;
    var endIdx := idx + |t.inside|;
    DelimitersAreFound(body, current, t, rest, d);
    Layout(body, current, t, rest, d);
    ActionFits(body, idx, endIdx, t, d);
    EndIsFound(body, idx, endIdx, t.inside, rest, d);
    NextTagIs(body, current, d, current + |t.text|, endIdx, TagEnd(body, idx, endIdx, d).value, Behind(t.inside, d));
  }

  lemma Apart(body: string, i: nat, a: string, b: string, c: string)
    requires i <= |body| && body[i..] == a + b + c
    ensures i + |a| + |b| + |c| == |body|
    ensures body[i..i + |a|] == a && body[i + |a|..i + |a| + |b|] == b && body[i + |a| + |b|..] == c
  {
    var s := body[i..];
    assert s[..|a|] == a && s[|a|..|a| + |b|] == b && s[|a| + |b|..] == c;
    Slice(body, i, |body|, 0, |a|);
    Slice(body, i, |body|, |a|, |a| + |b|);
    Slice(body, i, |body|, |a| + |b|, |s|);
  }

  /** Around what is written between delimiters are no spaces. */
  lemma Edges(body: string, i: nat, s: string, d: string)
    requires i + |s| + |d| <= |body| && body[i..i + |s| + |d|] == s + d && DelimiterOk(d)
    ensures body[i + |s|] != ' ' && body[i + |s| + |d| - 1] != ' '
  {
    assert (s + d)[|s|] == d[0] && (s + d)[|s| + |d| - 1] == d[|d| - 1];
  }

  /** The tags and the pieces of text that were written. */
  ghost predicate Reads(body: string, r: Lexed, current: nat, tokens: seq<Token>, last: string) {
    && r.ok && |r.tags| == |r.fragments| == |tokens| + 1 && InOrder(r.fragments, current, |body|)
    && AllFit(body, r.tags[..|tokens|], tokens) && r.tags[|tokens|] == END
    && (forall k :: 0 <= k < |tokens| ==> body[r.fragments[k].0..r.fragments[k].1] == tokens[k].text)
    && body[r.fragments[|tokens|].0..r.fragments[|tokens|].1] == last
  }

  lemma {:induction false} ReadsMore(body: string, r: Lexed, current: nat, i: nat, end: nat, a: Action, t: Token,
                                     tokens: seq<Token>, last: string)
    requires Reads(body, r, end, tokens, last) && current <= i <= end && i <= |body|
    requires body[current..i] == t.text && Fits(body, a, t)
    ensures Reads(body, Onto((current, i), a, r), current, [t] + tokens, last)
  {
    var s, all := Onto((current, i), a, r), [t] + tokens;
    hide Fits;
    assert forall k :: 1 <= k < |s.fragments| ==> s.fragments[k] == r.fragments[k - 1];
    assert forall k :: 1 <= k < |s.tags| ==> s.tags[k] == r.tags[k - 1];
    assert forall k :: 1 <= k < |all| ==> all[k] == tokens[k - 1];
    assert forall k :: 1 <= k < |all| ==> s.tags[..|all|][k] == r.tags[..|tokens|][k - 1];
  }

  lemma {:induction false} LastIsRead(body: string, current: nat, last: string, d: Delimiters)
    requires current <= |body| && Usable(d) && Legible([], last, d)
    requires body[current..] == Written([], last, d)
    ensures Reads(body, Lex(body, current, d), current, [], last)
  {
    FindNone(body, current, last, d.open);
  }

  /** Reading a template gives the tags that were written, and the text between. */
  lemma {:induction false} WrittenIsRead(body: string, current: nat, tokens: seq<Token>, last: string, d: Delimiters)
    requires current <= |body| && Usable(d) && Legible(tokens, last, d)
    requires body[current..] == Written(tokens, last, d)
    ensures Reads(body, Lex(body, current, d), current, tokens, last)
    decreases |tokens|
  {
    hide NextTag, Fits, Onto, TagOk, Clear, Changed, ActionOf, DelimiterOk, InOrder, Find, StartsAt;
    if tokens == [] {
      LastIsRead(body, current, last, d);
    } else {
      var t, rest := tokens[0], Written(tokens[1..], last, Behind(tokens[0].inside, d));
      TagIsFound(body, current, t, rest, d);
      var tag := NextTag(body, current, d);
      WrittenIsRead(body, tag.end, tokens[1..], last, tag.next);
      ReadsMore(body, Lex(body, tag.end, tag.next), current, tag.i, tag.end, ActionOf(body, tag.idx, tag.endIdx), t,
                tokens[1..], last);
      assert [t] + tokens[1..] == tokens;
    }
  }

  // Linking a tree.

  /** Blocks end with a closing tag of the same name, and nothing else is a block. */
  predicate Nested(p: Part)
    decreases p, 1
  {
    match p
    case Lone(_, inside) => inside != "" && Kind(inside[0]) !in {OpenBlock, ElseBlock, CloseBlock}
    case Block(_, inside, kids, _, closing) =>
      && inside != "" && Kind(inside[0]) in {OpenBlock, ElseBlock}
      && closing != "" && Kind(closing[0]) == CloseBlock && Bare(inside) == Bare(closing) && AllNested(kids)
  }

  predicate AllNested(parts: seq<Part>)
    decreases parts, 0
  {
    parts == [] || (Nested(parts[0]) && AllNested(parts[1..]))
  }

  /** The tree of the parts, with the numbers that their actions have. */
  function Pieces(p: Part, n: nat): seq<Piece>
    requires Nested(p)
    decreases p, 1
  {
    match p
    case Lone(text, inside) => [Text(text)] + if Kind(inside[0]) == Ignore then [] else [Leaf(n)]
    case Block(text, inside, kids, last, _) =>
      var all := AllPieces(kids, n + 1) + [Text(last)];
      [Text(text)] + [if Kind(inside[0]) == OpenBlock then Section(n, all) else Inverted(n, all)]
  }

  function AllPieces(parts: seq<Part>, n: nat): seq<Piece>
    requires AllNested(parts)
    decreases parts, 0
  {
    if parts == [] then [] else Pieces(parts[0], n) + AllPieces(parts[1..], n + |Flat(parts[0])|)
  }

  /** The pieces for the action at `lo`. */
  function FirstPieces(texts: seq<string>, actions: seq<Action>, lo: nat, hi: nat): seq<Piece>
    requires lo < hi <= |actions| == |texts|
  {
    var a := actions[lo];
    if IsBlock(a) && lo < a.pos < hi then
      var kids := Tree(texts, actions, lo + 1, a.pos) + [Text(texts[a.pos])];
      [if a.t == OpenBlock then Section(lo, kids) else Inverted(lo, kids)]
    else if a.t == Tag || a.t == UnescapeTag || a.t == Partial then [Leaf(lo)]
    else []
  }

  lemma {:induction false} TreeFirst(texts: seq<string>, actions: seq<Action>, lo: nat, hi: nat)
    requires lo < hi <= |actions| == |texts|
    ensures var next := if IsBlock(actions[lo]) && lo < actions[lo].pos < hi then actions[lo].pos + 1 else lo + 1;
            Tree(texts, actions, lo, hi)
            == [Text(texts[lo])] + (FirstPieces(texts, actions, lo, hi) + Tree(texts, actions, next, hi))
  {
  }

  lemma {:induction false} TreeNone(texts: seq<string>, actions: seq<Action>, lo: nat)
    requires lo <= |actions| == |texts|
    ensures Tree(texts, actions, lo, lo) == []
  {
  }

  lemma {:induction false} TreeStays(texts: seq<string>, actions: seq<Action>, texts1: seq<string>, actions1: seq<Action>,
                                     lo: nat, hi: nat)
    requires lo <= hi <= |actions| == |texts| && hi <= |actions1| == |texts1|
    requires forall i :: lo <= i < hi ==> actions[i] == actions1[i] && texts[i] == texts1[i]
    ensures Tree(texts, actions, lo, hi) == Tree(texts1, actions1, lo, hi)
    decreases hi - lo
  {
    hide Tree;
    if lo == hi {
      TreeNone(texts, actions, lo);
      TreeNone(texts1, actions1, lo);
    } else {
      var a := actions[lo];
      TreeFirst(texts, actions, lo, hi);
      TreeFirst(texts1, actions1, lo, hi);
      if IsBlock(a) && lo < a.pos < hi {
        TreeStays(texts, actions, texts1, actions1, lo + 1, a.pos);
        TreeStays(texts, actions, texts1, actions1, a.pos + 1, hi);
      } else {
        TreeStays(texts, actions, texts1, actions1, lo + 1, hi);
      }
    }
  }

  lemma {:induction false} TreeConcat(texts: seq<string>, actions: seq<Action>, lo: nat, mid: nat, hi: nat)
    requires lo <= mid <= hi <= |actions| == |texts| && Balanced(actions, lo, mid)
    ensures Tree(texts, actions, lo, hi) == Tree(texts, actions, lo, mid) + Tree(texts, actions, mid, hi)
    decreases mid - lo
  {
    hide Tree;
    if lo == mid {
      TreeNone(texts, actions, lo);
    } else {
      var next := if IsBlock(actions[lo]) then actions[lo].pos + 1 else lo + 1;
      TreeConcat(texts, actions, next, mid, hi);
      TreeFirst(texts, actions, lo, mid);
      TreeFirst(texts, actions, lo, hi);
      var first := FirstPieces(texts, actions, lo, hi);
      assert FirstPieces(texts, actions, lo, mid) == first;
      Sequences.Assoc(first, Tree(texts, actions, next, mid), Tree(texts, actions, mid, hi));
      Sequences.Assoc([Text(texts[lo])], first + Tree(texts, actions, next, mid), Tree(texts, actions, mid, hi));
    }
  }

  lemma {:induction false} LinkAllConcat(body: string, actions: seq<Action>, open: seq<nat>, a: seq<Action>, b: seq<Action>)
    requires OpenOk(actions, open) && AllInText(body, actions) && AllInText(body, a) && AllInText(body, b)
    ensures AllInText(body, a + b)
    ensures LinkAll(body, actions, open, a + b)
            == match LinkAll(body, actions, open, a)
               case Fails(why) => Fails(why)
               case Links(linked, left) => LinkAll(body, linked, left, b)
    decreases |a|
  {
    if a == [] {
      assert a + b == b;
    } else {
      assert (a + b)[0] == a[0] && (a + b)[1..] == a[1..] + b;
      hide OpenOk;
      var l := Link(body, actions, open, a[0]);
      if l.Links? {
        LinkAllConcat(body, l.actions, l.open, a[1..], b);
      }
    }
  }

  /** However long the rest is: with these texts the new actions stand for these pieces. */
  ghost predicate StandsFor(actions: seq<Action>, n: nat, tokens: seq<Token>, pieces: seq<Piece>) {
    && |actions| == n + |tokens|
    && forall texts: seq<string> :: |texts| == |actions| && TextsAt(texts, n, tokens)
         ==> Tree(texts, actions, n, |actions|) == pieces
  }

  predicate TextsAt(texts: seq<string>, n: nat, tokens: seq<Token>) {
    |texts| >= n + |tokens| && forall k :: n <= k < n + |tokens| ==> texts[k] == tokens[k - n].text
  }

  /** Links change nothing else in an action. */
  predicate SameTag(a: Action, b: Action) { a.(pos := 0) == b.(pos := 0) }

  predicate SameTags(actions: seq<Action>, n: nat, tags: seq<Action>) {
    |actions| == n + |tags| && forall k :: n <= k < n + |tags| ==> SameTag(actions[k], tags[k - n])
  }

  /** Tags added to actions are linked among themselves, and stand for these pieces. */
  ghost predicate Adds(body: string, actions: seq<Action>, open: seq<nat>, tags: seq<Action>, tokens: seq<Token>,
                       pieces: seq<Piece>)
    requires OpenOk(actions, open) && AllInText(body, actions) && AllInText(body, tags)
  {
    var l, n := LinkAll(body, actions, open, tags), |actions|;
    && l.Links? && l.open == open && SameTags(l.actions, n, tags) && l.actions[..n] == actions
    && Balanced(l.actions, n, |l.actions|) && StandsFor(l.actions, n, tokens, pieces)
  }

  lemma {:induction false} AddsOne(body: string, actions: seq<Action>, open: seq<nat>, a: Action, t: Token)
    requires OpenOk(actions, open) && AllInText(body, actions) && Fits(body, a, t) && Nested(Lone(t.text, t.inside))
    ensures AllInText(body, [a])
    ensures Adds(body, actions, open, [a], [t], Pieces(Lone(t.text, t.inside), |actions|))
  {
    LinkAllOne(body, actions, open, a);
    var b, n := actions + [a], |actions|;
    assert Balanced(b, n + 1, n + 1);
    assert Balanced(b, n, n + 1);
    forall texts: seq<string> | |texts| == n + 1 && TextsAt(texts, n, [t])
      ensures Tree(texts, b, n, n + 1) == Pieces(Lone(t.text, t.inside), n)
    {
      assert texts[n] == t.text && Tree(texts, b, n + 1, n + 1) == [];
    }
  }

  lemma {:induction false} LinkAllOne(body: string, actions: seq<Action>, open: seq<nat>, a: Action)
    requires OpenOk(actions, open) && AllInText(body, actions) && InText(body, a)
    ensures AllInText(body, [a]) && LinkAll(body, actions, open, [a]) == Link(body, actions, open, a)
  {
    assert [a][1..] == [];
    hide Link;
  }

  lemma {:induction false} StandsForMore(x: seq<Action>, y: seq<Action>, n: nat, s: seq<Token>, p: seq<Piece>,
                                         t: seq<Token>, q: seq<Piece>)
    requires StandsFor(x, n, s, p) && StandsFor(y, |x|, t, q) && n <= |x| <= |y| && y[..|x|] == x
    requires Balanced(x, n, |x|)
    ensures StandsFor(y, n, s + t, p + q)
  {
    hide Tree, Balanced;
    var m, e := |x|, |y|;
    assert forall k :: n <= k < m ==> y[k] == y[..m][k] == x[k];
    BalancedStays(x, y, n, m);
    forall texts: seq<string> | |texts| == e && TextsAt(texts, n, s + t) ensures Tree(texts, y, n, e) == p + q {
      TreeConcat(texts, y, n, m, e);
      TreeStays(texts, y, texts[..m], x, n, m);
      assert TextsAt(texts[..m], n, s) && TextsAt(texts, m, t);
    }
  }

  lemma {:induction false} AddsMore(body: string, actions: seq<Action>, open: seq<nat>, a: seq<Action>, s: seq<Token>,
                                    p: seq<Piece>, b: seq<Action>, t: seq<Token>, q: seq<Piece>)
    requires OpenOk(actions, open) && AllInText(body, actions) && AllInText(body, a) && AllInText(body, b)
    requires Adds(body, actions, open, a, s, p)
    requires Adds(body, LinkAll(body, actions, open, a).actions, open, b, t, q)
    ensures AllInText(body, a + b) && Adds(body, actions, open, a + b, s + t, p + q)
  {
    hide LinkAll, Balanced, StandsFor, AllInText, OpenOk, SameTag;
    LinkAllConcat(body, actions, open, a, b);
    var x, y, n := LinkAll(body, actions, open, a).actions, LinkAll(body, actions, open, a + b).actions, |actions|;
    StandsForMore(x, y, n, s, p, t, q);
    assert forall k :: n <= k < |x| ==> y[k] == y[..|x|][k] == x[k];
    BalancedStays(x, y, n, |x|);
    BalancedConcat(y, n, |x|, |y|);
    assert y[..n] == y[..|x|][..n] == actions;
  }

  /** A block around actions that are linked among themselves. */
  lemma {:induction false} LinkedAround(body: string, actions: seq<Action>, open: seq<nat>, a: Action, kids: seq<Action>,
                                        c: Action)
    requires OpenOk(actions, open) && AllInText(body, actions) && AllInText(body, kids)
    requires InText(body, a) && InText(body, c) && IsBlock(a) && c.t == CloseBlock && Name(body, a) == Name(body, c)
    requires OpenOk(actions + [a], open + [|actions|]) && AllInText(body, actions + [a])
    requires var l := LinkAll(body, actions + [a], open + [|actions|], kids);
             l.Links? && l.open == open + [|actions|] && |l.actions| > |actions| && l.actions[..|actions| + 1] == actions + [a]
    ensures AllInText(body, [a] + kids + [c])
    ensures LinkAll(body, actions, open, [a] + kids + [c])
            == var x, n := LinkAll(body, actions + [a], open + [|actions|], kids).actions, |actions|;
               Links(x[n := a.(pos := |x|)] + [c.(pos := n)], open)
  {
    var n := |actions|;
    LinkAllOne(body, actions, open, a);
    LinkAllConcat(body, actions, open, [a], kids);
    LinkAllConcat(body, actions, open, [a] + kids, [c]);
    var l := LinkAll(body, actions + [a], open + [n], kids);
    LinkAllOne(body, l.actions, l.open, c);
    hide LinkAll, AllInText, OpenOk;
    assert l.actions[n] == l.actions[..n + 1][n] == a;
    assert l.open[..|l.open| - 1] == open;
  }

  lemma TextsAround(texts: seq<string>, n: nat, first: Token, kids: seq<Token>, last: Token)
    requires |texts| == n + |kids| + 2 && TextsAt(texts, n, [first] + kids + [last])
    ensures texts[n] == first.text && texts[|texts| - 1] == last.text && TextsAt(texts[..|texts| - 1], n + 1, kids)
  {
    var all, e := [first] + kids + [last], |texts| - 1;
    assert all[0] == first && all[|kids| + 1] == last;
    assert texts[e] == all[e - n].text;
    forall k | n + 1 <= k < e ensures texts[..e][k] == kids[k - (n + 1)].text {
      assert all[k - n] == kids[k - (n + 1)];
    }
  }

  lemma {:induction false} BlockTree(texts: seq<string>, x: seq<Action>, y: seq<Action>, n: nat)
    requires n < |x| && |y| == |x| + 1 == |texts| && IsBlock(y[n]) && y[n].pos == |x|
    requires forall k :: n < k < |x| ==> y[k] == x[k]
    ensures Tree(texts, y, n, |y|)
            == var all := Tree(texts[..|x|], x, n + 1, |x|) + [Text(texts[|x|])];
               [Text(texts[n])] + [if y[n].t == OpenBlock then Section(n, all) else Inverted(n, all)]
  {
    var e := |x|;
    TreeFirst(texts, y, n, e + 1);
    TreeStays(texts, y, texts[..e], x, n + 1, e);
    assert Tree(texts, y, e + 1, e + 1) == [];
    hide Tree;
  }

  lemma {:induction false} StandsForBlock(x: seq<Action>, y: seq<Action>, n: nat, p: Part)
    requires Nested(p) && p.Block? && n < |x| && |y| == |x| + 1 && StandsFor(x, n + 1, FlatAll(p.kids), AllPieces(p.kids, n + 1))
    requires y[n].t == Kind(p.inside[0]) && y[n].pos == |x| && forall k :: n < k < |x| ==> y[k] == x[k]
    ensures StandsFor(y, n, Flat(p), Pieces(p, n))
  {
    hide Tree, TextsAt, Bare, AllPieces, FlatAll, Kind;
    var kids, first, end := FlatAll(p.kids), Token(p.text, p.inside), Token(p.last, p.closing);
    assert Flat(p) == [first] + kids + [end];
    forall texts: seq<string> | |texts| == |x| + 1 && TextsAt(texts, n, Flat(p)) ensures Tree(texts, y, n, |y|) == Pieces(p, n) {
      TextsAround(texts, n, first, kids, end);
      BlockTree(texts, x, y, n);
    }
  }

  lemma SameTagsAround(x: seq<Action>, y: seq<Action>, n: nat, a: Action, kids: seq<Action>, c: Action)
    requires |x| > n && |y| == |x| + 1 && SameTags(x, n + 1, kids) && forall k :: n < k < |x| ==> y[k] == x[k]
    requires SameTag(y[n], a) && SameTag(y[|x|], c)
    ensures SameTags(y, n, [a] + kids + [c])
  {
    var tags := [a] + kids + [c];
    forall k | n <= k < |y| ensures SameTag(y[k], tags[k - n]) {
      if n < k < |x| {
        assert tags[k - n] == kids[k - (n + 1)];
      }
    }
  }

  /** The actions of a block, around those of its kids. */
  lemma {:induction false} Around(actions: seq<Action>, x: seq<Action>, y: seq<Action>, p: Part, a: Action,
                                  kids: seq<Action>, c: Action)
    requires Nested(p) && p.Block? && a.t == Kind(p.inside[0]) && c.t == CloseBlock && a.pos == 0 == c.pos
    requires var n := |actions|;
             && SameTags(x, n + 1, kids) && x[..n + 1] == actions + [a] && Balanced(x, n + 1, |x|)
             && StandsFor(x, n + 1, FlatAll(p.kids), AllPieces(p.kids, n + 1))
             && y == x[n := a.(pos := |x|)] + [c.(pos := n)]
    ensures var n := |actions|;
            && y[..n] == actions && SameTags(y, n, [a] + kids + [c]) && Balanced(y, n, |y|)
            && StandsFor(y, n, Flat(p), Pieces(p, n))
  {
    var n, e := |actions|, |x|;
    hide StandsFor, Pieces, Flat, Bare, SameTags, AllPieces, FlatAll;
    Longer(x, n + 1, kids);
    StandsForBlock(x, y, n, p);
    assert SameTags(y, n, [a] + kids + [c]) by {
      SameTagsAround(x, y, n, a, kids, c);
    }
    assert Balanced(y, n, e + 1) by {
      BalancedStays(x, y, n + 1, e);
      assert Balanced(y, e + 1, e + 1);
    }
    assert y[..n] == actions by {
      assert x[..n] == x[..n + 1][..n] == actions;
    }
  }

  lemma {:induction false} AddsBlock(body: string, actions: seq<Action>, open: seq<nat>, p: Part, a: Action,
                                     kids: seq<Action>, c: Action)
    requires OpenOk(actions, open) && AllInText(body, actions) && AllInText(body, kids) && Nested(p) && p.Block?
    requires Fits(body, a, Token(p.text, p.inside)) && Fits(body, c, Token(p.last, p.closing))
    requires OpenOk(actions + [a], open + [|actions|]) && AllInText(body, actions + [a])
    requires Adds(body, actions + [a], open + [|actions|], kids, FlatAll(p.kids), AllPieces(p.kids, |actions| + 1))
    ensures AllInText(body, [a] + kids + [c])
    ensures Adds(body, actions, open, [a] + kids + [c], Flat(p), Pieces(p, |actions|))
  {
    hide LinkAll, StandsFor, AllInText, OpenOk, Pieces, Flat, Bare, SameTags, AllPieces, FlatAll, Balanced;
    var n, x := |actions|, LinkAll(body, actions + [a], open + [|actions|], kids).actions;
    Longer(x, n + 1, kids);
    LinkedAround(body, actions, open, a, kids, c);
    Around(actions, x, x[n := a.(pos := |x|)] + [c.(pos := n)], p, a, kids, c);
  }

  lemma Longer(x: seq<Action>, n: nat, kids: seq<Action>)
    requires SameTags(x, n, kids)
    ensures |x| == n + |kids|
  {
  }

  lemma FitsSplit(body: string, tags: seq<Action>, s: seq<Token>, t: seq<Token>)
    requires AllFit(body, tags, s + t)
    ensures |tags| == |s| + |t| && AllFit(body, tags[..|s|], s) && AllFit(body, tags[|s|..], t)
    ensures tags == tags[..|s|] + tags[|s|..]
  {
    hide Fits;
    forall k | 0 <= k < |s| ensures Fits(body, tags[..|s|][k], s[k]) {
      assert (s + t)[k] == s[k];
    }
    forall k | 0 <= k < |t| ensures Fits(body, tags[|s|..][k], t[k]) {
      assert (s + t)[|s| + k] == t[k] && tags[|s|..][k] == tags[|s| + k];
    }
  }

  lemma FitsOne(body: string, tags: seq<Action>, t: Token)
    requires AllFit(body, tags, [t])
    ensures tags == [tags[0]] && Fits(body, tags[0], t)
  {
  }

  lemma {:induction false} AddsPart(body: string, actions: seq<Action>, open: seq<nat>, p: Part, tags: seq<Action>)
    requires OpenOk(actions, open) && AllInText(body, actions) && AllFit(body, tags, Flat(p)) && Nested(p)
    ensures AllInText(body, tags) && Adds(body, actions, open, tags, Flat(p), Pieces(p, |actions|))
    decreases p, 1
  {
    match p
    case Lone(text, inside) =>
      FitsOne(body, tags, Token(text, inside));
      AddsOne(body, actions, open, tags[0], Token(text, inside));
    case Block(text, inside, kids, last, closing) =>
      var first, all, end := [Token(text, inside)], FlatAll(kids), [Token(last, closing)];
      FitsSplit(body, tags, first + all, end);
      FitsSplit(body, tags[..1 + |all|], first, all);
      var a, ks, c := tags[..1 + |all|][..1], tags[..1 + |all|][1..], tags[1 + |all|..];
      FitsOne(body, a, first[0]);
      FitsOne(body, c, end[0]);
      Opened(body, actions, open, a[0], first[0]);
      hide Fits, AllFit, OpenOk, AllInText, Adds, Pieces, AllPieces;
      AddsAll(body, actions + a, open + [|actions|], kids, ks);
      AddsBlock(body, actions, open, p, a[0], ks, c[0]);
  }

  lemma Opened(body: string, actions: seq<Action>, open: seq<nat>, a: Action, t: Token)
    requires OpenOk(actions, open) && AllInText(body, actions) && Fits(body, a, t)
    ensures OpenOk(actions + [a], open + [|actions|]) && AllInText(body, actions + [a])
  {
  }

  lemma {:induction false} AddsAll(body: string, actions: seq<Action>, open: seq<nat>, parts: seq<Part>, tags: seq<Action>)
    requires OpenOk(actions, open) && AllInText(body, actions) && AllFit(body, tags, FlatAll(parts)) && AllNested(parts)
    ensures AllInText(body, tags) && Adds(body, actions, open, tags, FlatAll(parts), AllPieces(parts, |actions|))
    decreases parts, 0
  {
    hide Fits, AllFit, Pieces, Flat, Adds, OpenOk, AllInText, LinkAll;
    if parts == [] {
      AddsNone(body, actions, open, tags);
    } else {
      Unfold(parts, |actions|);
      hide FlatAll, AllPieces;
      var s, t := Flat(parts[0]), FlatAll(parts[1..]);
      FitsSplit(body, tags, s, t);
      var a, b := tags[..|s|], tags[|s|..];
      AddsPart(body, actions, open, parts[0], a);
      AddsLength(body, actions, open, a, s, Pieces(parts[0], |actions|));
      var l := LinkAll(body, actions, open, a);
      AddsAll(body, l.actions, open, parts[1..], b);
      AddsMore(body, actions, open, a, s, Pieces(parts[0], |actions|), b, t, AllPieces(parts[1..], |l.actions|));
    }
  }

  lemma AddsNone(body: string, actions: seq<Action>, open: seq<nat>, tags: seq<Action>)
    requires OpenOk(actions, open) && AllInText(body, actions) && AllFit(body, tags, FlatAll([]))
    ensures AllInText(body, tags) && Adds(body, actions, open, tags, FlatAll([]), AllPieces([], |actions|))
  {
    assert tags == [];
  }

  lemma Unfold(parts: seq<Part>, n: nat)
    requires parts != [] && AllNested(parts)
    ensures AllPieces(parts, n) == Pieces(parts[0], n) + AllPieces(parts[1..], n + |Flat(parts[0])|)
    ensures FlatAll(parts) == Flat(parts[0]) + FlatAll(parts[1..])
  {
  }

  lemma AddsLength(body: string, actions: seq<Action>, open: seq<nat>, tags: seq<Action>, tokens: seq<Token>,
                   pieces: seq<Piece>)
    requires OpenOk(actions, open) && AllInText(body, actions) && AllInText(body, tags)
    requires Adds(body, actions, open, tags, tokens, pieces)
    ensures var l := LinkAll(body, actions, open, tags);
            l.Links? && l.open == open && |l.actions| == |actions| + |tokens|
  {
    hide LinkAll, Balanced, SameTag, AllInText, OpenOk;
  }

  // Templates.

  /** A tree that can be written: its blocks end as they begin, its tags say what they
      should, and its texts hold no delimiter of a tag. */
  predicate IsTemplate(parts: seq<Part>, last: string) {
    AllNested(parts) && Legible(FlatAll(parts), last, START)
  }

  function TextOf(parts: seq<Part>, last: string): string { Written(FlatAll(parts), last, START) }

  lemma ReadsParts(body: string, r: Lexed, tokens: seq<Token>, last: string)
    requires Reads(body, r, 0, tokens, last)
    ensures var n := |tokens|;
            && r.ok && |r.tags| == n + 1 && r.tags[n] == END && AllFit(body, r.tags[..n], tokens)
            && InOrder(r.fragments, 0, |body|)
    ensures var texts := TextsOf(body, r.fragments);
            |texts| == |tokens| + 1 && TextsAt(texts[..|tokens|], 0, tokens) && texts[|tokens|] == last
  {
    hide AllFit;
  }

  /** What a template is compiled to: its texts, and its tags linked. */
  lemma {:induction false} TemplateIsRead(parts: seq<Part>, last: string)
    returns (fragments: seq<(nat, nat)>, tags: seq<Action>, linked: seq<Action>)
    requires IsTemplate(parts, last)
    ensures var body, tokens := TextOf(parts, last), FlatAll(parts);
            && Compile(body) == Program(fragments, linked + [END], [])
            && AllFit(body, tags, tokens) && SameTags(linked, 0, tags) && StandsFor(linked, 0, tokens, AllPieces(parts, 0))
            && InOrder(fragments, 0, |body|)
            && var texts := TextsOf(body, fragments);
               |texts| == |tokens| + 1 && TextsAt(texts[..|tokens|], 0, tokens) && texts[|tokens|] == last
  {
    var body, tokens := TextOf(parts, last), FlatAll(parts);
    CompileStarts(body);
    hide Lex, Reads, LinkAll, AllInText, AllFit, Compile, OpenOk, InOrder, TextsAt, DelimiterOk, FlatAll, AllPieces;
    hide StandsFor, SameTags, Balanced;
    WrittenIsRead(body, 0, tokens, last, START);
    var r, n := Lex(body, 0, START), |tokens|;
    ReadsParts(body, r, tokens, last);
    fragments, tags := r.fragments, r.tags[..n];
    AddsAll(body, [], [], parts, tags);
    ProgramIs(body, n);
    linked := LinkAll(body, [], [], tags).actions;
  }

  lemma {:induction false} TagBecomes(body: string, actions: seq<Action>, tags: seq<Action>, tokens: seq<Token>, k: nat)
    requires SameTags(actions, 0, tags) && AllFit(body, tags, tokens) && k < |tokens|
    ensures tokens[k].inside != "" && actions[k].t == Kind(tokens[k].inside[0]) && InText(body, actions[k])
    ensures actions[k].t != Ignore ==> Name(body, actions[k]) == Bare(tokens[k].inside)
  {
    hide Kind, Bare;
    assert SameTag(actions[k], tags[k]);
    assert Fits(body, tags[k], tokens[k]);
  }

  /** Every template compiles without leaving a block open, and each tag becomes an
      action of its kind, with its name. */
  lemma {:induction false} TemplateCompiles(parts: seq<Part>, last: string)
    requires IsTemplate(parts, last)
    ensures var body, tokens := TextOf(parts, last), FlatAll(parts);
            var p := Compile(body);
            && p.Program? && p.open == [] && |p.actions| == |tokens| + 1
            && forall k :: 0 <= k < |tokens| ==>
                 && tokens[k].inside != "" && p.actions[k].t == Kind(tokens[k].inside[0]) && InText(body, p.actions[k])
                 && (p.actions[k].t != Ignore ==> Name(body, p.actions[k]) == Bare(tokens[k].inside))
  {
    hide Kind, Bare, StandsFor, SameTags, AllFit, Compile, FlatAll, AllPieces, TextsAt, InOrder;
    var fragments, tags, linked := TemplateIsRead(parts, last);
    var body, tokens := TextOf(parts, last), FlatAll(parts);
    Longer(linked, 0, tags);
    FitsLength(body, tags, tokens);
    forall k | 0 <= k < |tokens|
      ensures tokens[k].inside != "" && linked[k].t == Kind(tokens[k].inside[0]) && InText(body, linked[k])
      ensures linked[k].t != Ignore ==> Name(body, linked[k]) == Bare(tokens[k].inside)
    {
      TagBecomes(body, linked, tags, tokens, k);
    }
  }

  lemma FitsLength(body: string, tags: seq<Action>, tokens: seq<Token>)
    requires AllFit(body, tags, tokens)
    ensures |tags| == |tokens|
  {
  }

  /** What is compiled means what the tree does. */
  lemma {:induction false} TemplateMeans<C>(env: Env<C>, parts: seq<Part>, last: string, stack: seq<C>)
    requires IsTemplate(parts, last)
    ensures Compile(TextOf(parts, last)).Program?
    ensures Rendered(env, TextOf(parts, last), stack) == Meanings(env, AllPieces(parts, 0) + [Text(last)], stack)
  {
    hide AllFit, Meanings, Compile, Tree, SameTags, FlatAll, AllPieces, StandsFor, TextsAt, InOrder, Linked;
    var fragments, tags, linked := TemplateIsRead(parts, last);
    var body, tokens := TextOf(parts, last), FlatAll(parts);
    Longer(linked, 0, tags);
    FitsLength(body, tags, tokens);
    CompiledIsLinked(body);
    var texts, n := TextsOf(body, fragments), |tokens|;
    TreeStays(texts, linked + [END], texts[..n], linked, 0, n);
    Stands(linked, texts[..n], tokens, AllPieces(parts, 0));
  }

  lemma Stands(actions: seq<Action>, texts: seq<string>, tokens: seq<Token>, pieces: seq<Piece>)
    requires StandsFor(actions, 0, tokens, pieces) && |texts| == |actions| && TextsAt(texts, 0, tokens)
    ensures Tree(texts, actions, 0, |actions|) == pieces
  {
  }
}
