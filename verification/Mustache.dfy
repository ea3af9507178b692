/** Compiling a Mustache template, and rendering what was compiled. */
module Mustache {
  import opened MustacheCompile
  import opened MustacheModel
  import opened MustacheRender
  import opened MustacheTemplates

  /** The characters next to a tag name are no spaces. */
  lemma NoSpace(s: string, i: nat, d: string)
    requires DelimiterOk(d) && StartsAt(s, i, d)
    ensures |d| > 0 && s[i] != ' ' && s[i + |d| - 1] != ' '
  {
    assert s[i..i + |d|][0] == s[i] && s[i..i + |d|][|d| - 1] == s[i + |d| - 1];
  }

  lemma NotEmpty(d: string)
    requires DelimiterOk(d)
    ensures |d| > 0
  {
  }

  lemma {:induction false} TwoWordsIn(body: string, lo: nat, hi: nat, a: nat, n: nat, b: nat, e: nat)
    requires lo <= a < n < b < e <= hi <= |body| && body[b] != ' ' && body[e - 1] != ' '
    requires forall k :: lo <= k < a || n <= k < b || e <= k < hi ==> body[k] == ' '
    requires forall k :: a <= k < n ==> body[k] != ' '
    ensures var w := Words(body[lo..hi]);
            && (|w| == 2) == (' ' !in body[b..e])
            && (|w| == 2 ==> w == [body[a..n], body[b..e]])
  {
    var s := body[lo..hi];
    assert forall k :: lo <= k < hi ==> body[k] == s[k - lo];
    assert WordEnd(s, a - lo) == n - lo by {
      assert s[n - lo] == ' ';
    }
    TwoWords(s, a - lo, n - lo, b - lo, e - lo);
    assert s[a - lo..n - lo] == body[a..n] && s[b - lo..e - lo] == body[b..e];
    assert forall k :: b - lo <= k < e - lo ==> s[k] == body[b..e][k - (b - lo)];
  }

  lemma {:induction false} OneWordIn(body: string, lo: nat, hi: nat, a: nat, e: nat)
    requires lo <= a <= hi <= |body| && lo <= e <= hi
    requires forall k :: lo <= k < a || e <= k < hi ==> body[k] == ' '
    requires forall k :: a <= k < e ==> body[k] != ' '
    ensures |Words(body[lo..hi])| < 2
  {
    OneWord(body[lo..hi], a - lo, e - lo);
  }

  class Template {
    const body: string
    var fragments: seq<(nat, nat)>
    var actions: seq<Action>
    var blockPositions: seq<nat>
    var tag_open: string
    var tag_close: string

    constructor (body: string)
      ensures this.body == body && fragments == [] && actions == [] && blockPositions == []
      ensures Delims() == START
    {
      this.body, fragments, actions, blockPositions := body, [], [], [];
      tag_open, tag_close := "{{", "}}";
    }

    function Delims(): Delimiters
      reads this
    {
      Delimiters(tag_open, tag_close)
    }

    /** Actions and open blocks that could be a program so far. */
    predicate Sound()
      reads this
    {
      OpenOk(actions, blockPositions) && AllInText(body, actions)
    }

    /** Compiles the template: the program that its text stands for, or why it is
        none. Blocks that are still open at the end are left in `blockPositions`. */
    method Parse() returns (result: Parsed)
      requires fragments == [] && actions == [] && blockPositions == [] && Delims() == START
      modifies this
      ensures match Compile(body)
              case Rejected(why) => result == Failed(why)
              case Program(f, a, o) => result == Compiled && fragments == f && actions == a && blockPositions == o
    {
      hide Lex, LinkAll, StartsAt, DelimiterOk, CompileFrom, ActionOf, Link, Compile, AllInText, OpenOk, Changed, TagEnd;
      CompileStarts(body);
      ghost var program := Compile(body);
      var current := 0;
      while true
        invariant Sound() && Usable(Delims()) && current <= |body|
        invariant CompileFrom(body, fragments, actions, blockPositions, current, Delims()) == program
        decreases |body| - current
      {
        var found := Find(body, tag_open, current);
        if found.None? {
          CompileEnds(body, fragments, actions, blockPositions, current, Delims());
          fragments := fragments + [(current, |body|)];
          actions := actions + [Action(Ignore, 0, 0, 0)];
          return Compiled;
        }
        var idx := found.value + |tag_open|;
        NoSpace(body, found.value, tag_open);
        var close := Find(body, tag_close, idx);
        if close.None? || close.value == idx {
          CompileEnds(body, fragments, actions, blockPositions, current, Delims());
          return Failed(Invalid);
        }
        NoSpace(body, close.value, tag_close);
        if IsTag(body, idx, close.value, Delims()) {
          CompileStep(body, fragments, actions, blockPositions, current, Delims());
        } else {
          CompileEnds(body, fragments, actions, blockPositions, current, Delims());
        }
        fragments := fragments + [(current, found.value)];
        result, current := ParseTag(idx, close.value);
        if !result.Compiled? {
          return;
        }
      }
    }

    /** One tag, which goes from `idx` up to `endIdx`: its action linked, and the
        place and the delimiters behind it, unless it is no tag or cannot be linked. */
    method ParseTag(idx: nat, endIdx: nat) returns (result: Parsed, current: nat)
      requires Sound() && Usable(Delims())
      requires 0 < idx < endIdx && endIdx + |tag_close| <= |body| && body[idx - 1] != ' ' && body[endIdx] != ' '
      modifies this`actions, this`blockPositions, this`tag_open, this`tag_close
      ensures old(!IsTag(body, idx, endIdx, Delims())) ==> result == Failed(Invalid)
      ensures old(IsTag(body, idx, endIdx, Delims())) ==>
                match Link(body, old(actions), old(blockPositions), ActionOf(body, idx, endIdx))
                case Fails(why) => result == Failed(why)
                case Links(linked, left) =>
                  && result == Compiled && actions == linked && blockPositions == left
                  && current == TagEnd(body, idx, endIdx, old(Delims())).value
                  && Delims() == Changed(body[idx..endIdx], old(Delims())).value
      ensures Link(body, old(actions), old(blockPositions), ActionOf(body, idx, endIdx)).Fails? ==> !result.Compiled?
    {
      assert body[idx..endIdx][0] == body[idx];
      NotEmpty(tag_close);
      hide DelimiterOk, WordsFrom, Link, ActionOf;
      current := endIdx + |tag_close|;
      var c := body[idx];
      if c == '{' {
        if tag_open != "{{" || tag_close != "}}" {
          return Failed(Invalid), current;
        }
        if CharAt(body, endIdx + 2) != '}' {
          return Failed(Invalid), current;
        }
        current := current + 1;
      }
      result := AddTag(idx, endIdx);
      if c == '=' {
        result := ChangeDelimiters(idx + 1, endIdx - 1);
      }
    }

    /** The action of a tag; a closing tag is linked with the block opened last. */
    method AddTag(idx: nat, endIdx: nat) returns (result: Parsed)
      requires Sound() && 0 < idx < endIdx < |body| && body[idx - 1] != ' ' && body[endIdx] != ' '
      modifies this`actions, this`blockPositions
      ensures match Link(body, old(actions), old(blockPositions), ActionOf(body, idx, endIdx))
              case Fails(why) => result == Failed(why)
              case Links(linked, left) => result == Compiled && actions == linked && blockPositions == left
      ensures body[idx] == '=' ==> result == Compiled
    {
      hide Name, Past, Before;
      result := Compiled;
      var c := body[idx];
      if c == '!' || c == '=' {
        actions := actions + [Action(Ignore, idx + 1, endIdx, 0)];
        return;
      }
      var start, end := Trim(if Kind(c) == Tag then idx else idx + 1, endIdx);
      if c == '#' || c == '^' {
        blockPositions := blockPositions + [|actions|];
        actions := actions + [Action(if c == '#' then OpenBlock else ElseBlock, start, end, 0)];
      } else if c == '/' {
        if blockPositions == [] {
          return Failed(Undefined);
        }
        var matched := blockPositions[|blockPositions| - 1];
        assert InText(body, actions[matched]);
        var a := Action(CloseBlock, start, end, matched);
        NameStays(body, a, 0);
        if Name(body, a) != Name(body, actions[matched]) {
          return Failed(Invalid);
        }
        actions := actions[matched := actions[matched].(pos := |actions|)];
        actions := actions + [a];
        blockPositions := blockPositions[..|blockPositions| - 1];
      } else if c == '>' {
        actions := actions + [Action(Partial, start, end, 0)];
      } else if c == '{' || c == '&' {
        actions := actions + [Action(UnescapeTag, start, end, 0)];
      } else {
        actions := actions + [Action(Tag, start, end, 0)];
      }
    }

    /** Leaves out the spaces at both ends of a name. */
    method Trim(idx: nat, endIdx: nat) returns (start: nat, end: nat)
      requires 0 < idx <= endIdx < |body| && body[idx - 1] != ' ' && body[endIdx] != ' '
      ensures idx <= start <= endIdx && idx <= end <= endIdx
      ensures start == Past(body, idx) && end == Before(body, endIdx)
    {
      start, end := idx, endIdx;
      while body[start] == ' '
        invariant idx <= start <= endIdx
        invariant forall i :: idx <= i < start ==> body[i] == ' '
        decreases endIdx - start
      {
        start := start + 1;
      }
      while body[end - 1] == ' '
        invariant idx <= end <= endIdx
        invariant forall i :: end <= i < endIdx ==> body[i] == ' '
        decreases end
      {
        end := end - 1;
      }
    }

    /** New delimiters: two words between the equals signs, which are at
        `idx0 - 1` and `endIdx0`; the template is invalid without them. */
    method ChangeDelimiters(idx0: nat, endIdx0: nat) returns (result: Parsed)
      requires 1 < idx0 && idx0 - 1 <= endIdx0 < |body| - 1
      requires body[idx0 - 1] == '=' && body[idx0 - 2] != ' ' && body[endIdx0 + 1] != ' '
      requires Usable(Delims())
      modifies this`tag_open, this`tag_close
      ensures match Changed(body[idx0 - 1..endIdx0 + 1], old(Delims()))
              case None => result == Failed(Invalid)
              case Some(d) => result == Compiled && Delims() == d
      ensures result.Compiled? ==> Usable(Delims())
    {
      var idx, endIdx := idx0, endIdx0;
      ghost var inside := body[idx0 - 1..endIdx0 + 1];
      assert inside[|inside| - 1] == body[endIdx0] && inside[0] == '=';
      if body[endIdx] != '=' {
        return Failed(Invalid);
      }
      endIdx := endIdx - 1;
      while body[idx] == ' '
        invariant idx0 <= idx <= endIdx0 + 1 && (idx0 <= endIdx0 ==> idx <= endIdx0)
        invariant forall k :: idx0 <= k < idx ==> body[k] == ' '
        decreases endIdx0 + 1 - idx
      {
        idx := idx + 1;
      }
      while body[endIdx] == ' '
        invariant idx0 - 2 <= endIdx <= endIdx0 && (idx0 <= endIdx0 ==> idx0 - 1 <= endIdx < endIdx0)
        invariant forall k :: endIdx < k < endIdx0 ==> body[k] == ' '
        decreases endIdx
      {
        endIdx := endIdx - 1;
      }
      endIdx := endIdx + 1;
      if |inside| >= 2 {
        Slice(body, idx0 - 1, endIdx0 + 1, 1, |inside| - 1);
      }
      var i := idx;
      while i < endIdx
        invariant idx <= i && (i <= endIdx || i == idx)
        invariant forall k :: idx <= k < i ==> body[k] != ' '
      {
        if body[i] == ' ' {
          var open := body[idx..i];
          ghost var n := i;
          while body[i] == ' '
            invariant n <= i < endIdx
            invariant forall k :: n <= k < i ==> body[k] == ' '
            decreases endIdx - i
          {
            i := i + 1;
          }
          TwoWordsIn(body, idx0, endIdx0, idx, n, i, endIdx);
          tag_open, tag_close := open, body[i..endIdx];
          if ' ' in tag_close {
            return Failed(Invalid);
          }
          return Compiled;
        }
        i := i + 1;
      }
      if |inside| >= 2 {
        OneWordIn(body, idx0, endIdx0, idx, endIdx);
      }
      return Failed(Invalid);
    }
  }

  /** Compiles a template and renders it, if all its blocks are closed: the output
      is what the tree of its blocks means. So the text of a tree renders that tree. */
  method CompileAndRender<C>(body: string, env: Env<C>, ctx: C)
    returns (result: Parsed, closed: bool, ok: bool, out: string)
    ensures match Compile(body)
            case Rejected(why) => result == Failed(why)
            case Program(_, _, open) => result == Compiled && closed == (open == [])
    ensures result.Compiled? && closed ==>
              var m := Rendered(env, body, [ctx]);
              ok == m.Out? && (ok ==> out == m.s)
    ensures forall parts, last :: IsTemplate(parts, last) && body == TextOf(parts, last) ==>
              var m := Meanings(env, AllPieces(parts, 0) + [Text(last)], [ctx]);
              result.Compiled? && closed && ok == m.Out? && (ok ==> out == m.s)
  {
    var template := new Template(body);
    result := template.Parse();
    closed := template.blockPositions == [];
    ok, out := false, "";
    if result.Compiled? && closed {
      CompiledIsLinked(body);
      var end := |template.fragments| - 1;
      var r := new Rendering(ctx);
      BalancedStays(template.actions[..end], template.actions, 0, end);
      ok := RenderInternal(env, TextsOf(body, template.fragments), template.actions, 0, end, r);
      out := r.out;
    }
    forall parts, last | IsTemplate(parts, last) && body == TextOf(parts, last)
      ensures result.Compiled? && closed
      ensures Rendered(env, body, [ctx]) == Meanings(env, AllPieces(parts, 0) + [Text(last)], [ctx])
    {
      TemplateMeans(env, parts, last, [ctx]);
      TemplateCompiles(parts, last);
    }
  }
}
