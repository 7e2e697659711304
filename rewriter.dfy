/**
 * The tone rewriter: each word token is stripped of its tones, split into
 * initial, nucleus and final, and the tone found first is put back on one
 * vowel of the nucleus, chosen by the nucleus's length and by whether the
 * syllable has a final. Every other token passes through unchanged, and the
 * rewritten tokens are joined back into one text.
 */
module Rewriter {
  import opened Search
  import opened VowelTable
  import opened ToneExtractor
  import opened Syllable

  /**
   * The index, inside a nucleus of `n` characters, of the vowel that takes
   * the tone: the last one when the syllable has a final or the nucleus is a
   * single vowel, the one before the last otherwise. Nuclei longer than three
   * characters get no position.
   */
  function TargetIndex(n: nat, hasFinal: bool): (r: Option<nat>)
    ensures r.Some? <==> 1 <= n <= 3
    ensures r.Some? ==> r.value < n
    ensures r.Some? ==> r.value == if hasFinal || n == 1 then n - 1 else n - 2
  {
    if n == 1 then Some(0)
    else if n == 2 then (if hasFinal then Some(1) else Some(0))
    else if n == 3 then (if hasFinal then Some(2) else Some(1))
    else None
  }

  /**
   * Where the tone `t` goes in a word cut into `p`: the initial's length plus
   * the target index in the nucleus; nothing when there is no tone to place,
   * the nucleus is empty or it is too long.
   */
  function PlaceIn(p: Parts, t: nat): (pos: Option<nat>)
    ensures pos.Some? ==> t != 0 && p.nucleus != []
    ensures pos.Some? ==> |p.initial| <= pos.value < |p.initial| + |p.nucleus|
  {
    if t == 0 || p.nucleus == [] then None
    else match TargetIndex(|p.nucleus|, p.final != [])
      case None => None
      case Some(k) => Some(|p.initial| + k)
  }

  /** Where the tone `t` goes in the stripped word `s`. */
  function PositionIn(s: string, t: nat): (pos: Option<nat>)
    ensures pos.Some? ==> pos.value < |s| && t != 0
  {
    PlaceIn(Split(s), t)
  }

  /** Where in the word the first tone of `tok` is put back. */
  function TonePosition(tok: string): (pos: Option<nat>)
    ensures pos.Some? ==> pos.value < |tok| && FirstTone(tok) != 0
  {
    PositionIn(StripWord(tok), FirstTone(tok))
  }

  /**
   * The pieces `p` joined again with the tone `t` put on the target vowel of
   * the nucleus; nothing when the nucleus is empty or longer than three
   * characters.
   */
  function Place(p: Parts, t: nat): (r: Option<string>)
    requires t < ToneCount
    ensures r.Some? ==> |r.value| == |p.initial| + |p.nucleus| + |p.final|
  {
    if p.nucleus == [] then None
    else match TargetIndex(|p.nucleus|, p.final != [])
      case None => None
      case Some(k) => Some(p.initial + p.nucleus[k := ApplyTone(p.nucleus[k], t)] + p.final)
  }

  /**
   * The rewrite of one word token: the token itself when it carries no tone
   * or its nucleus is empty or longer than three characters; otherwise the
   * initial, the nucleus with its first tone put on the target vowel, and the
   * final, all cut from the stripped word.
   */
  function Retone(tok: string): (r: string)
    ensures |r| == |tok|
  {
    var t := FirstTone(tok);
    if t == 0 then tok
    else match Place(Split(StripWord(tok)), t)
      case None => tok
      case Some(w) => w
  }

  /**
   * The rewrite of any token: a token that is neither alphabetic nor a
   * number is kept as it is; any other token is retoned. What counts as
   * alphabetic or numeric is given by `isAlpha` and `isDigit`.
   */
  function RewriteToken(tok: string, isAlpha: string -> bool, isDigit: string -> bool): (r: string)
    ensures |r| == |tok|
    ensures !isAlpha(tok) && !isDigit(tok) ==> r == tok
  {
    if !isAlpha(tok) && !isDigit(tok) then tok else Retone(tok)
  }

  /** Every token rewritten, in order. */
  function RewriteAll(tokens: seq<string>, isAlpha: string -> bool, isDigit: string -> bool): (r: seq<string>)
    ensures |r| == |tokens|
    ensures forall k :: 0 <= k < |tokens| ==> r[k] == RewriteToken(tokens[k], isAlpha, isDigit)
  {
    seq(|tokens|, k requires 0 <= k < |tokens| => RewriteToken(tokens[k], isAlpha, isDigit))
  }

  /** Rewriting one more token appends its rewrite. */
  lemma RewriteAllStep(tokens: seq<string>, i: nat, isAlpha: string -> bool, isDigit: string -> bool)
    requires i < |tokens|
    ensures RewriteAll(tokens[..i + 1], isAlpha, isDigit)
         == RewriteAll(tokens[..i], isAlpha, isDigit) + [RewriteToken(tokens[i], isAlpha, isDigit)]
  {
  }

  /** The tokens joined with nothing between them. */
  function Concat(ws: seq<string>): (r: string) {
    if ws == [] then [] else Concat(ws[..|ws| - 1]) + ws[|ws| - 1]
  }

  /** The rewritten text: every token rewritten, then joined. */
  function RewriteText(tokens: seq<string>, isAlpha: string -> bool, isDigit: string -> bool): (r: string) {
    Concat(RewriteAll(tokens, isAlpha, isDigit))
  }

  /**
   * Rewrites a tokenised text token by token, collecting the new tokens in a
   * list that is joined at the end. For a word token: strip it, split the
   * stripped word, choose the target vowel of the nucleus and put the tone
   * back on it, falling back to the token itself at every step that cannot
   * place a tone. The reverse index of the vowel table is passed in, built
   * once by `BuildIndex`.
   */
  method AddTonesToText(index: map<char, Pos>, tokens: seq<string>, isAlpha: string -> bool, isDigit: string -> bool)
    returns (text: string)
    requires IsReverseIndex(index)
    ensures text == RewriteText(tokens, isAlpha, isDigit)
  {
    var cleanWords: seq<string> := [];
    for i := 0 to |tokens|
      invariant cleanWords == RewriteAll(tokens[..i], isAlpha, isDigit)
    {
      var wordToken := tokens[i];
      RewriteAllStep(tokens, i, isAlpha, isDigit);
      if !isAlpha(wordToken) && !isDigit(wordToken) {
        cleanWords := cleanWords + [wordToken];
        continue;
      }

      var wordNoTone, toneId := RemoveToneFromWord(index, wordToken);
      if toneId == 0 {
        cleanWords := cleanWords + [wordToken];
        continue;
      }

      var pad, na, pac := SplitSyllableParts(wordNoTone);
      var finalWord := wordToken;
      if na == "" {
        finalWord := wordToken;
      } else {
        var tonedNaChars := na;
        var target: int := -1;
        var numVowels := |na|;
        if numVowels == 1 {
          target := 0;
        } else if numVowels == 2 {
          if pac != "" {
            target := 1;
          } else {
            target := 0;
          }
        } else if numVowels == 3 {
          if pac != "" {
            target := 2;
          } else {
            target := 1;
          }
        }
        assert target == match TargetIndex(|na|, pac != []) case Some(k) => k case None => -1;
        if target != -1 && target < |tonedNaChars| {
          var originalVowel := tonedNaChars[target];
          var tonedChar := ApplyToneToVowelChar(originalVowel, toneId);
          tonedNaChars := tonedNaChars[target := tonedChar];
          finalWord := pad + tonedNaChars + pac;
          assert Place(Parts(pad, na, pac), toneId) == Some(finalWord);
        } else {
          finalWord := wordToken;
        }
      }
      assert finalWord == Retone(wordToken);
      cleanWords := cleanWords + [finalWord];
    }
    assert tokens[..|tokens|] == tokens;
    text := Concat(cleanWords);
  }

  /** Replacing a character of the middle piece replaces it in the whole. */
  lemma UpdateInMiddle(a: string, b: string, c: string, k: nat, x: char)
    requires k < |b|
    ensures a + b[k := x] + c == (a + b + c)[|a| + k := x]
    ensures b[k] == (a + b + c)[|a| + k]
  {
  }

  /**
   * Placing a tone on the pieces of a word is a one-character update of the
   * joined word, at the position `PlaceIn` reports; both fail together.
   */
  lemma PlaceAsUpdate(p: Parts, t: nat)
    requires 0 < t < ToneCount
    ensures Place(p, t).Some? <==> PlaceIn(p, t).Some?
    ensures PlaceIn(p, t).Some? ==>
      var w, pos := p.initial + p.nucleus + p.final, PlaceIn(p, t).value;
      Place(p, t).value == w[pos := ApplyTone(w[pos], t)]
  {
    if p.nucleus != [] && TargetIndex(|p.nucleus|, p.final != []).Some? {
      var k := TargetIndex(|p.nucleus|, p.final != []).value;
      UpdateInMiddle(p.initial, p.nucleus, p.final, k, ApplyTone(p.nucleus[k], t));
    }
  }

  /**
   * The rewrite seen on the whole word: a token with no tone position is
   * returned as it is; otherwise the result is the stripped word with the
   * first tone put on the character at the tone position.
   */
  lemma RetoneAsUpdate(tok: string)
    ensures TonePosition(tok).None? ==> Retone(tok) == tok
    ensures TonePosition(tok).Some? ==>
      var s, pos := StripWord(tok), TonePosition(tok).value;
      Retone(tok) == s[pos := ApplyTone(s[pos], FirstTone(tok))]
  {
    var s, t := StripWord(tok), FirstTone(tok);
    if t != 0 {
      var p := Split(s);
      assert TonePosition(tok) == PlaceIn(p, t);
      PlaceAsUpdate(p, t);
    }
  }

  /**
   * Rewriting never changes the letters of a word, only where its tone sits:
   * the rewrite strips to the same word as the token.
   */
  lemma RetoneKeepsSkeleton(tok: string)
    ensures StripWord(Retone(tok)) == StripWord(tok)
  {
    RetoneAsUpdate(tok);
    if TonePosition(tok).Some? {
      var s, pos, t := StripWord(tok), TonePosition(tok).value, FirstTone(tok);
      StripWordKeepsRows(tok);
      StripUpdate(s, pos, ApplyTone(s[pos], t));
      BaseOfIdempotent(tok[pos]);
      if IsBase(s[pos]) {
        StripAfterApply(s[pos], t);
      } else {
        ApplyToNonBase(s[pos], t);
      }
      StripIdempotent(tok);
      assert StripWord(s)[pos := s[pos]] == s;
    }
  }

  /**
   * When the target character of the stripped word is a base vowel, the
   * rewrite carries exactly one tone: the token's first tone, on the target.
   */
  lemma ToneLandsOnTarget(tok: string)
    requires TonePosition(tok).Some? && IsBase(StripWord(tok)[TonePosition(tok).value])
    ensures forall j :: 0 <= j < |tok| ==>
      ToneOf(Retone(tok)[j]) == if j == TonePosition(tok).value then FirstTone(tok) else 0
    ensures FirstTone(Retone(tok)) == FirstTone(tok)
  {
    RetoneAsUpdate(tok);
    var s, pos, t := StripWord(tok), TonePosition(tok).value, FirstTone(tok);
    var r := Retone(tok);
    StripWordKeepsRows(tok);
    StripIdempotent(tok);
    StripAfterApply(s[pos], t);
    assert forall j :: 0 <= j < |s| ==> ToneOf(s[j]) == 0;
    SingleToneFound(r, pos);
  }

  /**
   * When the target character of the stripped word is not a base vowel (an
   * upper-case vowel, say), the tone is lost: the rewrite is the stripped
   * word and carries no tone at all.
   */
  lemma ToneLost(tok: string)
    requires TonePosition(tok).Some? && !IsBase(StripWord(tok)[TonePosition(tok).value])
    ensures Retone(tok) == StripWord(tok)
    ensures FirstTone(Retone(tok)) == 0
  {
    RetoneAsUpdate(tok);
    var s, pos := StripWord(tok), TonePosition(tok).value;
    ApplyToNonBase(s[pos], FirstTone(tok));
    assert s[pos := s[pos]] == s;
    StripIdempotent(tok);
  }

  /** A token whose tone landed on its target is left alone by a second rewrite. */
  lemma LandedToneIsFixed(tok: string)
    requires TonePosition(tok).Some? && IsBase(StripWord(tok)[TonePosition(tok).value])
    ensures Retone(Retone(tok)) == Retone(tok)
  {
    var r := Retone(tok);
    RetoneAsUpdate(tok);
    RetoneKeepsSkeleton(tok);
    ToneLandsOnTarget(tok);
    RetoneAsUpdate(r);
  }

  /** Rewriting a rewritten token changes nothing. */
  lemma RetoneIdempotent(tok: string)
    ensures Retone(Retone(tok)) == Retone(tok)
  {
    RetoneAsUpdate(tok);
    if TonePosition(tok).Some? {
      if IsBase(StripWord(tok)[TonePosition(tok).value]) {
        LandedToneIsFixed(tok);
      } else {
        ToneLost(tok);
      }
    }
  }

  /** Rewriting a rewritten token list changes nothing. */
  lemma RewriteAllIdempotent(tokens: seq<string>, isAlpha: string -> bool, isDigit: string -> bool)
    ensures RewriteAll(RewriteAll(tokens, isAlpha, isDigit), isAlpha, isDigit) == RewriteAll(tokens, isAlpha, isDigit)
  {
    var once := RewriteAll(tokens, isAlpha, isDigit);
    forall k | 0 <= k < |tokens|
      ensures RewriteToken(once[k], isAlpha, isDigit) == once[k]
    {
      RetoneIdempotent(tokens[k]);
    }
  }

  /** Joining two lists of tokens one after the other joins each and concatenates. */
  lemma {:induction false} ConcatAppend(a: seq<string>, b: seq<string>)
    ensures Concat(a + b) == Concat(a) + Concat(b)
    decreases |b|
  {
    if b == [] {
      assert a + b == a;
    } else {
      var b' := b[..|b| - 1];
      assert (a + b)[..|a + b| - 1] == a + b';
      assert (a + b)[|a + b| - 1] == b[|b| - 1];
      ConcatAppend(a, b');
    }
  }

  /** Rewriting two token lists one after the other rewrites each. */
  lemma RewriteAllAppend(a: seq<string>, b: seq<string>, isAlpha: string -> bool, isDigit: string -> bool)
    ensures RewriteAll(a + b, isAlpha, isDigit) == RewriteAll(a, isAlpha, isDigit) + RewriteAll(b, isAlpha, isDigit)
  {
    var whole, left, right := RewriteAll(a + b, isAlpha, isDigit), RewriteAll(a, isAlpha, isDigit), RewriteAll(b, isAlpha, isDigit);
    forall k | 0 <= k < |a + b| ensures whole[k] == (left + right)[k] {
      if k < |a| {
        assert (a + b)[k] == a[k];
      } else {
        assert (a + b)[k] == b[k - |a|];
      }
    }
  }

  /** Each token is rewritten on its own: rewriting two texts one after the other rewrites each. */
  lemma RewriteTextAppend(a: seq<string>, b: seq<string>, isAlpha: string -> bool, isDigit: string -> bool)
    ensures RewriteText(a + b, isAlpha, isDigit) == RewriteText(a, isAlpha, isDigit) + RewriteText(b, isAlpha, isDigit)
  {
    RewriteAllAppend(a, b, isAlpha, isDigit);
    ConcatAppend(RewriteAll(a, isAlpha, isDigit), RewriteAll(b, isAlpha, isDigit));
  }

  /**
   * A token whose stripped word has an empty nucleus, or one longer than
   * three characters, is kept as it is.
   */
  lemma FallbackKeepsToken(tok: string)
    requires Split(StripWord(tok)).nucleus == [] || |Split(StripWord(tok)).nucleus| > 3
    ensures TonePosition(tok) == None
    ensures Retone(tok) == tok
  {
  }

  /** A token that carries no tone is kept as it is. */
  lemma UntonedIsKept(tok: string)
    requires FirstTone(tok) == 0
    ensures Retone(tok) == tok
  {
  }

  /** A text none of whose tokens carries a tone comes back unchanged. */
  lemma UntonedTextUnchanged(tokens: seq<string>, isAlpha: string -> bool, isDigit: string -> bool)
    requires forall k :: 0 <= k < |tokens| ==> FirstTone(tokens[k]) == 0
    ensures RewriteText(tokens, isAlpha, isDigit) == Concat(tokens)
  {
    UntonedTokensKept(tokens, isAlpha, isDigit);
  }

  /** Tokens none of which carries a tone are all kept. */
  lemma UntonedTokensKept(tokens: seq<string>, isAlpha: string -> bool, isDigit: string -> bool)
    requires forall k :: 0 <= k < |tokens| ==> FirstTone(tokens[k]) == 0
    ensures RewriteAll(tokens, isAlpha, isDigit) == tokens
  {
    forall k | 0 <= k < |tokens|
      ensures RewriteToken(tokens[k], isAlpha, isDigit) == tokens[k]
    {
      UntonedIsKept(tokens[k]);
    }
    assert RewriteAll(tokens, isAlpha, isDigit) == tokens;
  }
}
