/**
 * Syllable splitting: a tone-free word is cut into its initial consonant
 * cluster, its vowel nucleus and its final consonant cluster. Clusters are
 * matched against the lower-cased word, longest cluster first, and the parts
 * are cut from the word as written, so their case is kept.
 */
module Syllable {
  import opened Search

  /** Initial consonant clusters, ordered from the longest to the shortest. */
  const Initials: seq<string> := [
    "ngh", "nh", "ph", "th", "tr", "ch", "gh", "kh", "ng", "gi", "qu",
    "b", "c", "d", "đ", "g", "h", "k", "l", "m", "n", "p", "r", "s", "t", "v", "x"
  ]

  /** Final consonant clusters, ordered from the longest to the shortest. */
  const Finals: seq<string> := ["ch", "nh", "ng", "t", "c", "n", "m", "p"]

  /** The length of every entry of `Initials`, by position. */
  lemma InitialsProfile()
    ensures |Initials| == 27
    ensures forall i :: 0 <= i < 27 ==>
      |Initials[i]| == if i == 0 then 3 else if i < 11 then 2 else 1
  {
  }

  /** The length of every entry of `Finals`, by position. */
  lemma FinalsProfile()
    ensures |Finals| == 8
    ensures forall i :: 0 <= i < 8 ==> |Finals[i]| == if i < 3 then 2 else 1
  {
  }

  /** Both cluster lists are already in the order a stable longest-first sort gives. */
  lemma ClustersLongestFirst()
    ensures ByLengthDescending(Initials)
    ensures ByLengthDescending(Finals)
  {
    InitialsProfile();
    FinalsProfile();
  }

  /**
   * The lower case of a letter: A to Z and Đ map to their small letters,
   * every other character is kept. The clusters hold only a to z and đ, so
   * this is all of lower-casing that matching against them can see.
   */
  function Lower(c: char): (r: char)
    ensures 'a' <= r <= 'z' <==> 'a' <= c <= 'z' || 'A' <= c <= 'Z'
    ensures 'A' <= c <= 'Z' ==> r as int == c as int + 32
    ensures c == 'Đ' ==> r == 'đ'
    ensures !('A' <= c <= 'Z') && c != 'Đ' ==> r == c
  {
    if 'A' <= c <= 'Z' then (c as int + 32) as char
    else if c == 'Đ' then 'đ'
    else c
  }

  /** The word with every character lower-cased. */
  function LowerWord(s: string): (r: string)
    ensures |r| == |s|
  {
    seq(|s|, k requires 0 <= k < |s| => Lower(s[k]))
  }

  /** The three parts of a syllable. */
  datatype Parts = Parts(initial: string, nucleus: string, final: string)

  /**
   * How much a cluster scan cuts off the front of `w`: the length of the
   * first cluster in `cands` that starts the lower-cased word, 0 when none
   * does.
   */
  function PrefixCut(cands: seq<string>, w: string): (n: nat)
    ensures n <= |w|
  {
    var m := FirstPrefix(cands, LowerWord(w));
    if m.Some? then |m.value| else 0
  }

  /**
   * How much a cluster scan cuts off the back of `rest`: the length of the
   * first cluster in `cands` that ends its lower case, 0 when none does or
   * `rest` is empty.
   */
  function SuffixCut(cands: seq<string>, rest: string): (n: nat)
    ensures n <= |rest|
  {
    if rest == [] then 0
    else
      var m := FirstSuffix(cands, LowerWord(rest));
      if m.Some? then |m.value| else 0
  }

  /** The length of the initial consonant of a word. */
  function InitialLength(w: string): (n: nat)
    ensures n <= |w|
  {
    PrefixCut(Initials, w)
  }

  /** The length of the final consonant of what follows the initial. */
  function FinalLength(rest: string): (n: nat)
    ensures n <= |rest|
  {
    SuffixCut(Finals, rest)
  }

  /**
   * The parts of `w` when its first `i` characters are the initial and its
   * last `f` characters after those are the final.
   */
  function Cut(w: string, i: nat, f: nat): (r: Parts)
    requires i + f <= |w|
    ensures r.initial + r.nucleus + r.final == w
    ensures |r.initial| == i && |r.final| == f
    ensures r.nucleus + r.final == w[i..]
    ensures r.final == w[i..][|w| - i - f..]
  {
    Parts(w[..i], w[i..|w| - f], w[|w| - f..])
  }

  /** The split of a tone-free word; the three parts put back together give the word. */
  function Split(w: string): (r: Parts)
    ensures r.initial + r.nucleus + r.final == w
  {
    var i := InitialLength(w);
    Cut(w, i, FinalLength(w[i..]))
  }

  /**
   * The first step of the split: the first cluster of `Initials` that starts
   * the lower-cased word is cut off its front, keeping the case of the word.
   */
  method CutInitial(word: string) returns (pad: string, rest: string)
    ensures |pad| == InitialLength(word)
    ensures pad == word[..|pad|] && rest == word[|pad|..]
  {
    pad := "";
    rest := word;
    EmptyCuts(word);
    ghost var lw := LowerWord(word);
    var cands := Initials;
    while cands != []
      invariant FirstPrefix(cands, lw) == FirstPrefix(Initials, lw)
      invariant pad == "" && rest == word
    {
      var initial := cands[0];
      if IsPrefix(initial, LowerWord(rest)) {
        pad := rest[..|initial|];
        rest := rest[|initial|..];
        assert FirstPrefix(Initials, lw) == Some(initial);
        break;
      }
      cands := cands[1..];
    }
  }

  /**
   * The second step of the split: when something is left after the initial,
   * the first cluster of `Finals` that ends its lower case is its final,
   * kept in the case of the word.
   */
  method CutFinal(rest: string) returns (pac: string)
    ensures |pac| == FinalLength(rest)
    ensures pac == rest[|rest| - |pac|..]
  {
    pac := "";
    EmptyCuts(rest);
    if rest != "" {
      ghost var lr := LowerWord(rest);
      var cands := Finals;
      while cands != []
        invariant FirstSuffix(cands, lr) == FirstSuffix(Finals, lr)
        invariant pac == ""
      {
        var final := cands[0];
        if IsSuffix(final, LowerWord(rest)) {
          pac := rest[|rest| - |final|..];
          assert FirstSuffix(Finals, lr) == Some(final);
          break;
        }
        cands := cands[1..];
      }
    }
  }

  /**
   * Splits a tone-free word the way the normaliser does: the initial is cut
   * off the front, then the final off the back of what is left, and what
   * lies between is the nucleus.
   */
  method SplitSyllableParts(wordNoTone: string) returns (pad: string, na: string, pac: string)
    ensures Parts(pad, na, pac) == Split(wordNoTone)
  {
    var tempWord;
    pad, tempWord := CutInitial(wordNoTone);
    pac := CutFinal(tempWord);
    na := tempWord[..|tempWord| - |pac|];
    CutPieces(wordNoTone, |pad|, |pac|);
  }

  /** Cutting nothing off either end of a word. */
  lemma EmptyCuts(w: string)
    ensures w[..0] == [] && w[0..] == w && w[|w|..] == []
  {
  }

  /** `Cut` reads the nucleus and the final off what follows the initial. */
  lemma CutPieces(w: string, i: nat, f: nat)
    requires i + f <= |w|
    ensures Cut(w, i, f) == Parts(w[..i], w[i..][..|w| - i - f], w[i..][|w| - i - f..])
  {
  }

  /** Lower-casing a word and taking a prefix commute. */
  lemma LowerWordPrefix(w: string, n: nat)
    requires n <= |w|
    ensures LowerWord(w[..n]) == LowerWord(w)[..n]
    ensures LowerWord(w[n..]) == LowerWord(w)[n..]
  {
  }

  /** The initial and final clusters are never empty. */
  lemma ClustersNonEmpty()
    ensures NoneEmpty(Initials) && NoneEmpty(Finals)
  {
    InitialsProfile();
    FinalsProfile();
  }

  /**
   * On non-empty clusters sorted longest first, the prefix scan cuts off the
   * longest cluster that starts the lower-cased word, taken from the word as
   * written, and cuts nothing exactly when no cluster starts it.
   */
  lemma {:induction false} PrefixCutIsLongest(cands: seq<string>, w: string)
    requires ByLengthDescending(cands) && NoneEmpty(cands)
    ensures var n := PrefixCut(cands, w);
      && (n == 0 <==> forall p :: p in cands ==> !IsPrefix(p, LowerWord(w)))
      && (n != 0 ==> IsLongestPrefix(LowerWord(w[..n]), cands, LowerWord(w)))
  {
    var s := LowerWord(w);
    FirstPrefixIsLongest(cands, s);
    var m := FirstPrefix(cands, s);
    if m.Some? {
      LowerWordPrefix(w, |m.value|);
    }
  }

  /**
   * On non-empty clusters sorted longest first, the suffix scan cuts off the
   * longest cluster that ends the lower case of `rest`, taken from `rest` as
   * written, and cuts nothing exactly when no cluster ends it.
   */
  lemma {:induction false} SuffixCutIsLongest(cands: seq<string>, rest: string)
    requires ByLengthDescending(cands) && NoneEmpty(cands)
    ensures var n := SuffixCut(cands, rest);
      && (n == 0 <==> forall p :: p in cands ==> !IsSuffix(p, LowerWord(rest)))
      && (n != 0 ==> IsLongestSuffix(LowerWord(rest[|rest| - n..]), cands, LowerWord(rest)))
  {
    var s := LowerWord(rest);
    if rest == [] {
      forall p | p in cands ensures !IsSuffix(p, s) {
        assert p != [];
      }
    } else {
      FirstSuffixIsLongest(cands, s);
      var m := FirstSuffix(cands, s);
      if m.Some? {
        LowerWordPrefix(rest, |rest| - |m.value|);
      }
    }
  }

  /**
   * The initial is the longest cluster of `Initials` that starts the word,
   * compared in lower case and cut from the word as written; it is empty
   * exactly when no cluster starts the word.
   */
  lemma InitialIsLongestMatch(w: string)
    ensures Split(w).initial == [] <==> forall p :: p in Initials ==> !IsPrefix(p, LowerWord(w))
    ensures Split(w).initial != [] ==> IsLongestPrefix(LowerWord(Split(w).initial), Initials, LowerWord(w))
  {
    ClustersLongestFirst();
    ClustersNonEmpty();
    PrefixCutIsLongest(Initials, w);
  }

  /**
   * The final is the longest cluster of `Finals` that ends what follows the
   * initial, compared in lower case and cut from the word as written; it is
   * empty exactly when no cluster ends what follows the initial.
   */
  lemma FinalIsLongestMatch(w: string)
    ensures var r := Split(w);
      r.final == [] <==> forall p :: p in Finals ==> !IsSuffix(p, LowerWord(r.nucleus + r.final))
    ensures var r := Split(w);
      r.final != [] ==> IsLongestSuffix(LowerWord(r.final), Finals, LowerWord(r.nucleus + r.final))
  {
    ClustersLongestFirst();
    ClustersNonEmpty();
    SuffixCutIsLongest(Finals, w[InitialLength(w)..]);
  }

  /** Lower-casing leaves a word of small letters unchanged. */
  lemma LowerOfSmall(w: string)
    requires forall k :: 0 <= k < |w| ==> 'a' <= w[k] <= 'z'
    ensures LowerWord(w) == w
  {
  }

  /**
   * The initial of `w` is the `k`-th cluster when that cluster starts the
   * lower-cased word and every earlier one differs from it in its first or
   * second letter.
   */
  lemma InitialIs(w: string, k: nat)
    requires k < |Initials| && IsPrefix(Initials[k], LowerWord(w))
    requires forall j :: 0 <= j < k ==> DiffersEarly(Initials[j], LowerWord(w))
    ensures InitialLength(w) == |Initials[k]|
  {
    EarlyMismatchesMiss(Initials, LowerWord(w), k);
    FirstPrefixAt(Initials, LowerWord(w), k);
  }

  /** The letters that end a final cluster. */
  predicate EndsFinal(c: char) {
    c == 'c' || c == 'g' || c == 'h' || c == 'm' || c == 'n' || c == 'p' || c == 't'
  }

  /**
   * A word that ends in a small letter that ends no final cluster has no
   * final: `pre` is the word without its last letter `c`.
   */
  lemma NoFinalAtEnd(pre: string, c: char)
    requires 'a' <= c <= 'z' && !EndsFinal(c)
    ensures FinalLength(pre + [c]) == 0
  {
    var l := LowerWord(pre + [c]);
    assert l[|l| - 1] == c;
    forall j | 0 <= j < |Finals|
      ensures Finals[j] != [] && l != [] && Finals[j][|Finals[j]| - 1] != l[|l| - 1]
    {
      assert EndsFinal(Finals[j][|Finals[j]| - 1]);
    }
    FirstSuffixNone(Finals, l);
  }

  /** The initial of "hoang" is "h". */
  lemma InitialOfHoang()
    ensures InitialLength("hoang") == 1
  {
    LowerOfSmall("hoang");
    InitialIs("hoang", 16);
  }

  /** The final of "oang" is "ng". */
  lemma FinalOfOang()
    ensures FinalLength("oang") == 2
  {
    LowerOfSmall("oang");
    assert IsSuffix(Finals[2], "oang");
    assert Finals[0][1] != 'g' && Finals[1][1] != 'g';
    LateMismatchesMiss(Finals, "oang", 2);
    FirstSuffixAt(Finals, "oang", 2);
  }

  /** "hoang" splits into "h", "oa" and "ng", as the normaliser documents. */
  lemma SplitHoang()
    ensures Split("hoang") == Parts("h", "oa", "ng")
  {
    assert Cut("hoang", 1, 2) == Parts("h", "oa", "ng");
    assert "hoang"[1..] == "oang";
    InitialOfHoang();
    FinalOfOang();
  }

  /** The initial of "qua" is "qu". */
  lemma InitialOfQua()
    ensures InitialLength("qua") == 2
  {
    LowerOfSmall("qua");
    InitialIs("qua", 10);
  }

  /** "a" has no final. */
  lemma NoFinalInA()
    ensures FinalLength("a") == 0
  {
    NoFinalAtEnd("", 'a');
    assert "" + ['a'] == "a";
  }

  /**
   * "qua" keeps "qu" as its initial and "a" as its nucleus, although the
   * normaliser documents an empty initial for it.
   */
  lemma SplitQua()
    ensures Split("qua") == Parts("qu", "a", "")
  {
    assert Cut("qua", 2, 0) == Parts("qu", "a", "");
    assert "qua"[2..] == "a";
    InitialOfQua();
    NoFinalInA();
  }

  /** A lone cluster is all initial: "ch" has neither nucleus nor final. */
  lemma SplitCh()
    ensures Split("ch") == Parts("ch", "", "")
  {
    LowerOfSmall("ch");
    InitialIs("ch", 5);
  }
}
