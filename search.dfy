/**
 * Small shared pieces: an Option type and the "first match" scans over a
 * list of consonant clusters that the syllable splitter performs (each scan
 * walks the list in order and stops at the first hit).
 */
module Search {

  datatype Option<+T> = None | Some(value: T)

  /** `p` is a prefix of `s`. */
  predicate IsPrefix(p: string, s: string) {
    |p| <= |s| && s[..|p|] == p
  }

  /** `p` is a suffix of `s`. */
  predicate IsSuffix(p: string, s: string) {
    |p| <= |s| && s[|s| - |p|..] == p
  }

  /** Every entry is at least as long as every entry after it. */
  predicate ByLengthDescending(s: seq<string>) {
    forall i, j :: 0 <= i < j < |s| ==> |s[i]| >= |s[j]|
  }

  /** No entry is empty. */
  predicate NoneEmpty(s: seq<string>) {
    forall p :: p in s ==> p != []
  }

  /** `p` is a candidate that starts `s`, and no candidate that starts `s` is longer. */
  predicate IsLongestPrefix(p: string, cands: seq<string>, s: string) {
    && p in cands
    && IsPrefix(p, s)
    && forall q :: q in cands && IsPrefix(q, s) ==> |q| <= |p|
  }

  /** `p` is a candidate that ends `s`, and no candidate that ends `s` is longer. */
  predicate IsLongestSuffix(p: string, cands: seq<string>, s: string) {
    && p in cands
    && IsSuffix(p, s)
    && forall q :: q in cands && IsSuffix(q, s) ==> |q| <= |p|
  }

  /** The first candidate that is a prefix of `s`, if any. */
  function FirstPrefix(cands: seq<string>, s: string): (m: Option<string>)
    ensures m.Some? ==> m.value in cands && IsPrefix(m.value, s)
    ensures m.None? ==> forall p :: p in cands ==> !IsPrefix(p, s)
  {
    if cands == [] then None
    else if IsPrefix(cands[0], s) then Some(cands[0])
    else FirstPrefix(cands[1..], s)
  }

  /** The first candidate that is a suffix of `s`, if any. */
  function FirstSuffix(cands: seq<string>, s: string): (m: Option<string>)
    ensures m.Some? ==> m.value in cands && IsSuffix(m.value, s)
    ensures m.None? ==> forall p :: p in cands ==> !IsSuffix(p, s)
  {
    if cands == [] then None
    else if IsSuffix(cands[0], s) then Some(cands[0])
    else FirstSuffix(cands[1..], s)
  }

  /**
   * On a list sorted longest first, the first candidate that is a prefix of
   * `s` is a longest one.
   */
  lemma {:induction false} FirstPrefixIsLongest(cands: seq<string>, s: string)
    requires ByLengthDescending(cands)
    ensures FirstPrefix(cands, s).Some? ==>
      forall p :: p in cands && IsPrefix(p, s) ==> |p| <= |FirstPrefix(cands, s).value|
  {
    if cands != [] && !IsPrefix(cands[0], s) {
      var tail := cands[1..];
      assert ByLengthDescending(tail) by {
        forall i, j | 0 <= i < j < |tail| ensures |tail[i]| >= |tail[j]| {
          assert tail[i] == cands[i + 1] && tail[j] == cands[j + 1];
        }
      }
      FirstPrefixIsLongest(tail, s);
      forall p | p in cands && IsPrefix(p, s) ensures p in tail {
        assert p != cands[0];
      }
    }
  }

  /**
   * On a list sorted longest first, the first candidate that is a suffix of
   * `s` is a longest one.
   */
  lemma {:induction false} FirstSuffixIsLongest(cands: seq<string>, s: string)
    requires ByLengthDescending(cands)
    ensures FirstSuffix(cands, s).Some? ==>
      forall p :: p in cands && IsSuffix(p, s) ==> |p| <= |FirstSuffix(cands, s).value|
  {
    if cands != [] && !IsSuffix(cands[0], s) {
      var tail := cands[1..];
      assert ByLengthDescending(tail) by {
        forall i, j | 0 <= i < j < |tail| ensures |tail[i]| >= |tail[j]| {
          assert tail[i] == cands[i + 1] && tail[j] == cands[j + 1];
        }
      }
      FirstSuffixIsLongest(tail, s);
      forall p | p in cands && IsSuffix(p, s) ensures p in tail {
        assert p != cands[0];
      }
    }
  }

  /**
   * The scan stops at the `k`-th candidate when it starts `s` and no earlier
   * candidate does.
   */
  lemma {:induction false} FirstPrefixAt(cands: seq<string>, s: string, k: nat)
    requires k < |cands| && IsPrefix(cands[k], s)
    requires forall j :: 0 <= j < k ==> !IsPrefix(cands[j], s)
    ensures FirstPrefix(cands, s) == Some(cands[k])
  {
    if k > 0 {
      var tail := cands[1..];
      assert forall j :: 0 <= j < |tail| ==> tail[j] == cands[j + 1];
      FirstPrefixAt(tail, s, k - 1);
    }
  }

  /** `p` and `s` differ in their first character or in their second. */
  predicate DiffersEarly(p: string, s: string) {
    || (p != [] && s != [] && p[0] != s[0])
    || (|p| >= 2 && |s| >= 2 && p[1] != s[1])
  }

  /** `p` and `s` differ in their last character or in the one before it. */
  predicate DiffersLate(p: string, s: string) {
    || (p != [] && s != [] && p[|p| - 1] != s[|s| - 1])
    || (|p| >= 2 && |s| >= 2 && p[|p| - 2] != s[|s| - 2])
  }

  /** Candidates that differ from `s` early on do not start it. */
  lemma EarlyMismatchesMiss(cands: seq<string>, s: string, k: nat)
    requires k <= |cands|
    requires forall j :: 0 <= j < k ==> DiffersEarly(cands[j], s)
    ensures forall j :: 0 <= j < k ==> !IsPrefix(cands[j], s)
  {
    forall j | 0 <= j < k ensures !IsPrefix(cands[j], s) {
      var p := cands[j];
      if |p| <= |s| {
        if p != [] && s != [] && p[0] != s[0] {
          assert s[..|p|][0] != p[0];
        } else {
          assert s[..|p|][1] != p[1];
        }
      }
    }
  }

  /** Candidates that differ from `s` late on do not end it. */
  lemma LateMismatchesMiss(cands: seq<string>, s: string, k: nat)
    requires k <= |cands|
    requires forall j :: 0 <= j < k ==> DiffersLate(cands[j], s)
    ensures forall j :: 0 <= j < k ==> !IsSuffix(cands[j], s)
  {
    forall j | 0 <= j < k ensures !IsSuffix(cands[j], s) {
      var p := cands[j];
      if |p| <= |s| {
        if p != [] && s != [] && p[|p| - 1] != s[|s| - 1] {
          assert s[|s| - |p|..][|p| - 1] != p[|p| - 1];
        } else {
          assert s[|s| - |p|..][|p| - 2] != p[|p| - 2];
        }
      }
    }
  }

  /** The scan finds nothing when every candidate differs from `s` in its first character. */
  lemma {:induction false} FirstPrefixNone(cands: seq<string>, s: string)
    requires forall j :: 0 <= j < |cands| ==> cands[j] != [] && s != [] && cands[j][0] != s[0]
    ensures FirstPrefix(cands, s) == None
  {
    if cands != [] {
      var tail := cands[1..];
      forall j | 0 <= j < |tail|
        ensures tail[j] != [] && s != [] && tail[j][0] != s[0]
      {
        assert tail[j] == cands[j + 1];
      }
      FirstPrefixNone(tail, s);
    }
  }

  /**
   * The scan stops at the `k`-th candidate when it ends `s` and no earlier
   * candidate does.
   */
  lemma {:induction false} FirstSuffixAt(cands: seq<string>, s: string, k: nat)
    requires k < |cands| && IsSuffix(cands[k], s)
    requires forall j :: 0 <= j < k ==> !IsSuffix(cands[j], s)
    ensures FirstSuffix(cands, s) == Some(cands[k])
  {
    if k > 0 {
      var tail := cands[1..];
      assert forall j :: 0 <= j < |tail| ==> tail[j] == cands[j + 1];
      FirstSuffixAt(tail, s, k - 1);
    }
  }

  /** The scan finds nothing when every candidate differs from `s` in its last character. */
  lemma {:induction false} FirstSuffixNone(cands: seq<string>, s: string)
    requires forall j :: 0 <= j < |cands| ==> cands[j] != [] && s != [] && cands[j][|cands[j]| - 1] != s[|s| - 1]
    ensures FirstSuffix(cands, s) == None
  {
    if cands != [] {
      var tail := cands[1..];
      forall j | 0 <= j < |tail|
        ensures tail[j] != [] && s != [] && tail[j][|tail[j]| - 1] != s[|s| - 1]
      {
        assert tail[j] == cands[j + 1];
      }
      FirstSuffixNone(tail, s);
    }
  }
}
