/**
 * Tone extraction: strip every vowel of a word to its base and report the
 * tone of the first toned vowel. Tones on later vowels are dropped.
 */
module ToneExtractor {
  import opened Search
  import opened VowelTable

  /** The word with every vowel of the table replaced by the base of its row. */
  function StripWord(w: string): (r: string)
    ensures |r| == |w|
  {
    seq(|w|, k requires 0 <= k < |w| => BaseOf(w[k]))
  }

  /**
   * Stripping keeps the length of the word; each vowel stays in its row and
   * loses its tone, and every other character is kept.
   */
  lemma StripWordKeepsRows(w: string)
    ensures |StripWord(w)| == |w|
    ensures forall k :: 0 <= k < |w| && IsVowel(w[k]) ==>
      IsBase(StripWord(w)[k]) && Lookup(StripWord(w)[k]).value.row == Lookup(w[k]).value.row
    ensures forall k :: 0 <= k < |w| && !IsVowel(w[k]) ==> StripWord(w)[k] == w[k]
  {
    forall k | 0 <= k < |w| {
      BaseOfKeepsRow(w[k]);
    }
  }

  /** The position of the first character that carries a tone, or `|w|`. */
  function FirstToned(w: string): (k: nat)
    ensures k <= |w|
    ensures forall j :: 0 <= j < k ==> ToneOf(w[j]) == 0
    ensures k < |w| ==> ToneOf(w[k]) != 0
  {
    if w == [] then 0
    else if ToneOf(w[0]) != 0 then 0
    else 1 + FirstToned(w[1..])
  }

  /**
   * The tone id of a word: the tone of its first toned vowel, or 0 when no
   * character carries a tone.
   */
  function FirstTone(w: string): (t: nat)
    ensures t < ToneCount
    ensures t == 0 <==> forall k :: 0 <= k < |w| ==> ToneOf(w[k]) == 0
  {
    var k := FirstToned(w);
    if k < |w| then ToneOf(w[k]) else 0
  }

  /**
   * Strips the tones from `word` in one left-to-right pass over a copy of
   * its characters, remembering the tone of the first toned vowel met. The
   * reverse index is passed in, built once by `BuildIndex`.
   */
  method RemoveToneFromWord(index: map<char, Pos>, word: string) returns (wordNoTone: string, toneId: nat)
    requires IsReverseIndex(index)
    ensures wordNoTone == StripWord(word)
    ensures toneId == FirstTone(word)
  {
    TableShape();
    toneId := 0;
    var chars := word;
    var firstToneFound := false;
    ghost var first := FirstToned(word);
    for i := 0 to |chars|
      invariant |chars| == |word|
      invariant forall k :: 0 <= k < i ==> chars[k] == BaseOf(word[k])
      invariant forall k :: i <= k < |word| ==> chars[k] == word[k]
      invariant firstToneFound <==> first < i
      invariant toneId == if first < i then ToneOf(word[first]) else 0
    {
      var c := chars[i];
      if c in index {
        var info := index[c];
        assert Lookup(c) == Some(info);
        LookupSound(c);
        var tone := info.tone;
        if !firstToneFound && tone != 0 {
          toneId := tone;
          firstToneFound := true;
        }
        chars := chars[i := Rows[info.row][0]];
      }
    }
    wordNoTone := chars;
  }

  /**
   * Stripping is idempotent: stripping a stripped word changes nothing and
   * finds no tone.
   */
  lemma StripIdempotent(w: string)
    ensures StripWord(StripWord(w)) == StripWord(w)
    ensures FirstTone(StripWord(w)) == 0
  {
    var s := StripWord(w);
    forall k | 0 <= k < |s| ensures StripWord(s)[k] == s[k] && ToneOf(s[k]) == 0 {
      BaseOfIdempotent(w[k]);
    }
  }

  /**
   * The first toned character decides the tone: when no character before
   * the `k`-th carries a tone and the `k`-th does, the word's tone is that
   * one, whatever tones follow it.
   */
  lemma FirstToneIs(w: string, k: nat)
    requires k < |w| && ToneOf(w[k]) != 0
    requires forall j :: 0 <= j < k ==> ToneOf(w[j]) == 0
    ensures FirstTone(w) == ToneOf(w[k])
  {
  }

  /**
   * A word with a single toned character yields that character's tone,
   * wherever in the word it stands.
   */
  lemma SingleToneFound(w: string, k: nat)
    requires k < |w| && ToneOf(w[k]) != 0
    requires forall j :: 0 <= j < |w| && j != k ==> ToneOf(w[j]) == 0
    ensures FirstTone(w) == ToneOf(w[k])
  {
  }

  /** Stripping a word with one character replaced strips that character alone anew. */
  lemma StripUpdate(w: string, i: nat, x: char)
    requires i < |w|
    ensures StripWord(w[i := x]) == StripWord(w)[i := BaseOf(x)]
  {
  }
}
