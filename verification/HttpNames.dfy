/** Which header names the parser knows, letter by letter. */
module HttpNames {
  import opened HttpTypes
  import opened HttpStep

  const CONNECTION := "connection"
  const PROXY_CONNECTION := "proxy-connection"
  const CONTENT_LENGTH := "content-length"
  const TRANSFER_ENCODING := "transfer-encoding"
  const UPGRADE := "upgrade"

  predicate Tokens(name: seq<Byte>) { forall k :: 0 <= k < |name| ==> Token(name[k]) != '\0' }

  /** A name in lower case. */
  function Low(name: seq<Byte>): string { seq(|name|, k requires 0 <= k < |name| => Token(name[k])) }

  /** The matcher after the letters of a name. */
  function Matched(low: string): Matcher
    requires low != ""
  {
    if |low| == 1 then Matcher(FirstHs(low[0]), 0)
    else FieldNext(Matched(low[..|low| - 1]), low[|low| - 1], low[|low| - 1])
  }

  /** A text that could still become this word, and one that is it. */
  predicate Begins(low: string, word: string) { |low| < |word| && low == word[..|low|] }

  predicate Is(low: string, word: string) { low == word }

  /** What the matcher should know about a name. */
  function Known(low: string): HeaderState {
    if Is(low, CONNECTION) || Is(low, PROXY_CONNECTION) then H_CONNECTION
    else if Is(low, CONTENT_LENGTH) then H_CONTENT_LENGTH
    else if Is(low, TRANSFER_ENCODING) then H_TRANSFER_ENCODING
    else if Is(low, UPGRADE) then H_UPGRADE
    else if Begins(low, CONNECTION) then
      if |low| == 1 then H_C else if |low| == 2 then H_CO else if |low| == 3 then H_CON else H_MATCHING_CONNECTION
    else if Begins(low, CONTENT_LENGTH) then H_MATCHING_CONTENT_LENGTH
    else if Begins(low, PROXY_CONNECTION) then H_MATCHING_PROXY_CONNECTION
    else if Begins(low, TRANSFER_ENCODING) then H_MATCHING_TRANSFER_ENCODING
    else if Begins(low, UPGRADE) then H_MATCHING_UPGRADE
    else H_GENERAL
  }

  lemma MoreOf(low: string, c: char, word: string)
    ensures Begins(low + [c], word) <==> Begins(low, word) && |low| + 1 < |word| && word[|low|] == c
    ensures Is(low + [c], word) <==> Begins(low, word) && |low| + 1 == |word| && word[|low|] == c
  {
    assert (low + [c])[..|low|] == low;
    if Begins(low, word) && word[|low|] == c {
      assert word[..|low| + 1] == low + [c];
    }
    if |low| < |word| && low + [c] == word[..|low| + 1] {
      assert word[..|low|] == (low + [c])[..|low|];
    }
  }

  /** Comparing the next letter of a word. */
  lemma MatchWordIs(m: Matcher, low: string, c: char, word: string, done: HeaderState, miss: HeaderState)
    requires low != "" && Begins(low, word) && m.index == |low| - 1 && |word| < 32
    ensures MatchWord(m, c, word, done, miss)
            == Matcher(if Is(low + [c], word) then done else if Begins(low + [c], word) then m.hs else miss, |low|)
  {
    assert |low| < |word|;
    MoreOf(low, c, word);
    hide Begins, Is;
  }

  /** Words that begin alike are told apart by their first or their fourth letter. */
  lemma Tell(low: string)
    requires low != ""
    ensures Begins(low, CONNECTION) || Is(low, CONNECTION) ==> low[0] == 'c' && (|low| > 3 ==> low[3] == 'n')
    ensures Begins(low, CONTENT_LENGTH) || Is(low, CONTENT_LENGTH) ==> low[0] == 'c' && (|low| > 3 ==> low[3] == 't')
    ensures Begins(low, PROXY_CONNECTION) || Is(low, PROXY_CONNECTION) ==> low[0] == 'p'
    ensures Begins(low, TRANSFER_ENCODING) || Is(low, TRANSFER_ENCODING) ==> low[0] == 't'
    ensures Begins(low, UPGRADE) || Is(low, UPGRADE) ==> low[0] == 'u'
  {
  }

  lemma Lengths(low: string)
    ensures Is(low, CONNECTION) ==> |low| == 10 && !Begins(low, CONNECTION)
    ensures Is(low, PROXY_CONNECTION) ==> |low| == 16 && !Begins(low, PROXY_CONNECTION)
    ensures Is(low, CONTENT_LENGTH) ==> |low| == 14 && !Begins(low, CONTENT_LENGTH)
    ensures Is(low, TRANSFER_ENCODING) ==> |low| == 17 && !Begins(low, TRANSFER_ENCODING)
    ensures Is(low, UPGRADE) ==> |low| == 7 && !Begins(low, UPGRADE)
  {
  }

  /** The shortest beginnings belong to two words at once. */
  lemma Shared(low: string)
    ensures |low| <= 3 ==> (Begins(low, CONNECTION) <==> Begins(low, CONTENT_LENGTH))
  {
    assert CONNECTION[..3] == CONTENT_LENGTH[..3] == "con";
    assert |low| <= 3 ==> CONNECTION[..|low|] == CONNECTION[..3][..|low|] && CONTENT_LENGTH[..|low|] == CONTENT_LENGTH[..3][..|low|];
  }

  /** A matcher knows what it should: in the middle of a word, also where it is. */
  predicate Knows(m: Matcher, low: string) {
    && m.hs == Known(low)
    && (H_C <= m.hs <= H_MATCHING_UPGRADE ==> m.index == |low| - 1)
  }

  /** What becomes of every word with one more letter. */
  lemma MoreOfAll(low: string, c: char)
    ensures forall word :: !Begins(low, word) ==> !Begins(low + [c], word) && !Is(low + [c], word)
  {
    forall word ensures !Begins(low, word) ==> !Begins(low + [c], word) && !Is(low + [c], word) {
      MoreOf(low, c, word);
    }
  }

  lemma {:induction false} KnowsMore(m: Matcher, low: string, c: char)
    requires low != "" && Knows(m, low) && c != ' '
    ensures Knows(FieldNext(m, c, c), low + [c])
  {
    hide Begins, Is;
    Tell(low);
    Tell(low + [c]);
    Lengths(low);
    Lengths(low + [c]);
    Shared(low);
    MoreOfAll(low, c);
    if Begins(low, CONNECTION) {
      MoreOf(low, c, CONNECTION);
      MoreOf(low, c, CONTENT_LENGTH);
    }
    match m.hs
    case H_MATCHING_CONNECTION => MatchWordIs(m, low, c, CONNECTION, H_CONNECTION, H_GENERAL);
    case H_MATCHING_PROXY_CONNECTION => MatchWordIs(m, low, c, PROXY_CONNECTION, H_CONNECTION, H_GENERAL);
    case H_MATCHING_CONTENT_LENGTH => MatchWordIs(m, low, c, CONTENT_LENGTH, H_CONTENT_LENGTH, H_GENERAL);
    case H_MATCHING_TRANSFER_ENCODING => MatchWordIs(m, low, c, TRANSFER_ENCODING, H_TRANSFER_ENCODING, H_GENERAL);
    case H_MATCHING_UPGRADE => MatchWordIs(m, low, c, UPGRADE, H_UPGRADE, H_GENERAL);
    case _ =>
  }

  lemma {:induction false} MatchedKnows(low: string)
    requires low != "" && forall k :: 0 <= k < |low| ==> low[k] != ' '
    ensures Knows(Matched(low), low)
  {
    if |low| == 1 {
      FirstKnows(low);
    } else {
      var init, last := low[..|low| - 1], low[|low| - 1];
      MatchedKnows(init);
      KnowsMore(Matched(init), init, last);
      assert init + [last] == low;
    }
  }

  lemma FirstKnows(low: string)
    requires |low| == 1
    ensures Knows(Matcher(FirstHs(low[0]), 0), low)
  {
    Tell(low);
    Lengths(low);
    assert forall word :: Begins(low, word) <==> |word| > 1 && word[0] == low[0] by {
      forall word ensures Begins(low, word) <==> |word| > 1 && word[0] == low[0] {
        assert low == [low[0]] && (|word| > 1 ==> word[..1] == [word[0]]);
      }
    }
    hide Begins, Is;
  }

  lemma NoSpaces(name: seq<Byte>)
    requires Tokens(name)
    ensures forall k :: 0 <= k < |name| ==> Low(name)[k] != ' '
  {
  }

  predicate Named(name: seq<Byte>, word: string) { Low(name) == word }

  /** The matcher knows the five names from all others: what it says at the colon
      is what the whole name is, in any case of letters. */
  lemma NameIsKnown(name: seq<Byte>)
    requires name != [] && Tokens(name)
    ensures var hs := Matched(Low(name)).hs;
            && (hs == H_CONNECTION <==> Named(name, CONNECTION) || Named(name, PROXY_CONNECTION))
            && (hs == H_CONTENT_LENGTH <==> Named(name, CONTENT_LENGTH))
            && (hs == H_TRANSFER_ENCODING <==> Named(name, TRANSFER_ENCODING))
            && (hs == H_UPGRADE <==> Named(name, UPGRADE))
  {
    NoSpaces(name);
    MatchedKnows(Low(name));
    Lengths(Low(name));
    Tell(Low(name));
    assert forall word :: Is(Low(name), word) <==> Named(name, word);
    hide Is, Begins, Named, Low, Matched;
  }

  /** A name that begins like a Transfer-Encoding, in full or longer. */
  predicate LikeTransferEncoding(name: seq<Byte>) { TRANSFER_ENCODING <= Low(name) }

  lemma LowMore(name: seq<Byte>, ch: Byte)
    ensures Low(name + [ch]) == Low(name) + [Token(ch)]
  {
  }

  lemma MatchedMore(low: string, c: char, ch: char)
    requires low != "" && c != ' ' && ch != ' '
    ensures Matched(low + [c]) == FieldNext(Matched(low), ch, c)
  {
    assert (low + [c])[..|low|] == low;
    hide Matched, MatchWord;
  }

  lemma TokensBefore(name: seq<Byte>, ch: Byte)
    requires Tokens(name + [ch])
    ensures Tokens(name) && Token(ch) != '\0' && Token(ch) != ' ' && ch != ' '
  {
    assert (name + [ch])[|name|] == ch;
    forall k | 0 <= k < |name| ensures Token(name[k]) != '\0' {
      assert name[k] == (name + [ch])[k];
    }
  }

  /** The matcher gets to the end of the word exactly once. */
  lemma {:induction false} LikeMore(name: seq<Byte>, ch: Byte)
    requires name != [] && Tokens(name + [ch])
    ensures LikeTransferEncoding(name + [ch])
            <==> LikeTransferEncoding(name)
                 || (Matched(Low(name)).hs == H_MATCHING_TRANSFER_ENCODING
                     && Matched(Low(name + [ch])).hs == H_TRANSFER_ENCODING)
  {
    var low, c := Low(name), Token(ch);
    TokensBefore(name, ch);
    LowMore(name, ch);
    NoSpaces(name);
    NoSpaces(name + [ch]);
    MatchedKnows(low);
    MatchedKnows(low + [c]);
    PrefixMore(low, c, TRANSFER_ENCODING);
    MoreOf(low, c, TRANSFER_ENCODING);
    Tell(low);
    Tell(low + [c]);
    Lengths(low);
    Lengths(low + [c]);
    assert Is(low + [c], TRANSFER_ENCODING) <==> low + [c] == TRANSFER_ENCODING;
    hide Begins, Is, Matched, Low, Token, Tokens;
  }

  lemma PrefixMore(low: string, c: char, word: string)
    ensures word <= low + [c] <==> word <= low || word == low + [c]
  {
    if word <= low + [c] && |word| <= |low| {
      assert word == (low + [c])[..|word|] == low[..|word|];
    }
    if word <= low {
      assert word == low[..|word|] == (low + [c])[..|word|];
    }
  }
}
