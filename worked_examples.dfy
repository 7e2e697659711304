/**
 * Worked rewrites of words from the normaliser's own sample text: tones
 * moved to their proper vowel ("hoà" to "hòa", "taù" to "tàu", "noí" to
 * "nói"), tones moved across the initials "qu" and "gi" ("Qủa" to "Quả",
 * "gìa" to "già"), words already right that come back as they are ("giải",
 * "quyết", "tiễn", "lái"), a word with no tone that is kept as written
 * ("Chưong"); and, beyond the sample, a tone lost when the target vowel is
 * upper case ("Oà" to "Oa").
 */
module WorkedExamples {
  import opened Search
  import opened VowelTable
  import opened ToneExtractor
  import opened Syllable
  import opened Rewriter

  /** A character that is no entry of the table has no position in it. */
  lemma NotInTable(c: char)
    requires forall r, t :: 0 <= r < RowCount && 0 <= t < ToneCount ==> Rows[r][t] != c
    ensures Lookup(c) == None
  {
    if Lookup(c).Some? {
      LookupSound(c);
    }
  }

  /** Lower-casing `w` character by character gives `l`. */
  lemma LowerWordIs(w: string, l: string)
    requires |w| == |l| && forall k :: 0 <= k < |w| ==> Lower(w[k]) == l[k]
    ensures LowerWord(w) == l
  {
  }

  /** Stripping `w` character by character gives `s`. */
  lemma StripIs(w: string, s: string)
    requires |w| == |s| && forall k :: 0 <= k < |w| ==> BaseOf(w[k]) == s[k]
    ensures StripWord(w) == s
  {
  }

  /**
   * The rewrite of a token whose first tone, split and target index are
   * known: the initial, the nucleus with the tone on the target, the final.
   */
  lemma RetoneVia(tok: string, t: nat, p: Parts, k: nat)
    requires FirstTone(tok) == t != 0 && Split(StripWord(tok)) == p
    requires p.nucleus != [] && TargetIndex(|p.nucleus|, p.final != []) == Some(k)
    ensures k < |p.nucleus| && Retone(tok) == p.initial + p.nucleus[k := ApplyTone(p.nucleus[k], t)] + p.final
  {
    assert Place(p, t) == Some(p.initial + p.nucleus[k := ApplyTone(p.nucleus[k], t)] + p.final);
  }

  /** "Oà" strips to "Oa" with the grave tone. */
  lemma StripOa()
    ensures StripWord("Oà") == "Oa" && FirstTone("Oà") == 1
  {
    NotInTable('O');
    LookupEntry(0, 1);
    LookupEntry(0, 0);
    assert FirstToned("Oà") == 1;
  }

  /** "Oa" has no initial. */
  lemma NoInitialInOa()
    ensures InitialLength("Oa") == 0
  {
    LowerWordIs("Oa", "oa");
    InitialsProfile();
    FirstPrefixNone(Initials, "oa");
  }

  /** "Oa" has no final. */
  lemma NoFinalInUpperOa()
    ensures FinalLength("Oa") == 0
  {
    NoFinalAtEnd("O", 'a');
    assert "O" + ['a'] == "Oa";
  }

  /** "Oa" is all nucleus. */
  lemma SplitOa()
    ensures Split("Oa") == Parts("", "Oa", "")
  {
    assert Cut("Oa", 0, 0) == Parts("", "Oa", "");
    assert "Oa"[0..] == "Oa";
    NoInitialInOa();
    NoFinalInUpperOa();
  }

  /**
   * "Oà" loses its tone: the target vowel is the upper-case "O", which is
   * not a base vowel of the table, so nothing is put back.
   */
  lemma RetoneOa()
    ensures Retone("Oà") == "Oa"
  {
    assert "" + "Oa"[0 := 'O'] + "" == "Oa";
    NotInTable('O');
    assert ApplyTone('O', 1) == 'O';
    StripOa();
    SplitOa();
    RetoneVia("Oà", 1, Parts("", "Oa", ""), 0);
  }

  /** "Qủa" strips to "Qua" with the hook-above tone. */
  lemma StripQua()
    ensures StripWord("Qủa") == "Qua" && FirstTone("Qủa") == 3
  {
    NotInTable('Q');
    LookupEntry(9, 3);
    LookupEntry(9, 0);
    LookupEntry(0, 0);
    assert FirstToned("Qủa") == 1;
  }

  /** The initial of "Qua" is "Qu", matched in lower case. */
  lemma InitialOfUpperQua()
    ensures InitialLength("Qua") == 2
  {
    LowerWordIs("Qua", "qua");
    InitialIs("Qua", 10);
  }

  /** "Qua" splits into "Qu" and "a". */
  lemma SplitUpperQua()
    ensures Split("Qua") == Parts("Qu", "a", "")
  {
    assert Cut("Qua", 2, 0) == Parts("Qu", "a", "");
    assert "Qua"[2..] == "a";
    InitialOfUpperQua();
    NoFinalInA();
  }

  /** "Qủa" becomes "Quả": the tone moves from the "u" of "qu" to the nucleus. */
  lemma RetoneQua()
    ensures Retone("Qủa") == "Quả"
  {
    assert "Qu" + "a"[0 := 'ả'] + "" == "Quả";
    LookupEntry(0, 0);
    assert ApplyTone('a', 3) == 'ả';
    StripQua();
    SplitUpperQua();
    RetoneVia("Qủa", 3, Parts("Qu", "a", ""), 0);
  }

  /** "hoà" strips to "hoa" with the grave tone. */
  lemma StripHoa()
    ensures StripWord("hoà") == "hoa" && FirstTone("hoà") == 1
  {
    NotInTable('h');
    LookupEntry(6, 0);
    LookupEntry(0, 1);
    LookupEntry(0, 0);
    assert FirstToned("hoà") == 2;
  }

  /** The initial of "hoa" is "h". */
  lemma InitialOfHoa()
    ensures InitialLength("hoa") == 1
  {
    LowerOfSmall("hoa");
    InitialIs("hoa", 16);
  }

  /** "oa" has no final. */
  lemma NoFinalInOa()
    ensures FinalLength("oa") == 0
  {
    NoFinalAtEnd("o", 'a');
    assert "o" + ['a'] == "oa";
  }

  /** "hoa" splits into "h" and "oa". */
  lemma SplitHoa()
    ensures Split("hoa") == Parts("h", "oa", "")
  {
    assert Cut("hoa", 1, 0) == Parts("h", "oa", "");
    assert "hoa"[1..] == "oa";
    InitialOfHoa();
    NoFinalInOa();
  }

  /**
   * "hoà" becomes "hòa": with no final, the tone of a two-vowel nucleus
   * goes on its first vowel.
   */
  lemma RetoneHoa()
    ensures Retone("hoà") == "hòa"
  {
    assert "h" + "oa"[0 := 'ò'] + "" == "hòa";
    LookupEntry(6, 0);
    assert ApplyTone('o', 1) == 'ò';
    StripHoa();
    SplitHoa();
    RetoneVia("hoà", 1, Parts("h", "oa", ""), 0);
  }
  /** "tiễn" strips to "tiên". */
  lemma StripTien()
    ensures StripWord("tiễn") == "tiên"
  {
    NotInTable('t');
    NotInTable('n');
    LookupEntry(5, 0);
    LookupEntry(4, 4);
    assert BaseOf('t') == 't' && BaseOf('i') == 'i' && BaseOf('ễ') == 'ê' && BaseOf('n') == 'n';
    StripIs("tiễn", "tiên");
  }

  /** The tone of "tiễn" is the tilde, on its third character. */
  lemma ToneOfTien()
    ensures FirstTone("tiễn") == 4
  {
    NotInTable('t');
    LookupEntry(5, 0);
    LookupEntry(4, 4);
    assert ToneOf("tiễn"[0]) == 0;
    assert ToneOf("tiễn"[1]) == 0;
    assert ToneOf("tiễn"[2]) == 4;
    FirstToneIs("tiễn", 2);
  }

  /** The initial of "tiên" is "t", past "th" and "tr", which share its first letter. */
  lemma InitialOfTien()
    ensures InitialLength("tiên") == 1
  {
    LowerWordIs("tiên", "tiên");
    InitialIs("tiên", 24);
  }

  /** The final of "iên" is "n". */
  lemma FinalOfIen()
    ensures FinalLength("iên") == 1
  {
    LowerWordIs("iên", "iên");
    assert IsSuffix(Finals[5], "iên");
    LateMismatchesMiss(Finals, "iên", 5);
    FirstSuffixAt(Finals, "iên", 5);
  }

  /** "tiên" splits into "t", "iê" and "n". */
  lemma SplitTien()
    ensures Split("tiên") == Parts("t", "iê", "n")
  {
    assert Cut("tiên", 1, 1) == Parts("t", "iê", "n");
    assert "tiên"[1..] == "iên";
    InitialOfTien();
    FinalOfIen();
  }

  /**
   * "tiễn" comes back as it is: with a final, the tone of a two-vowel
   * nucleus goes on its last vowel, where it already stands.
   */
  lemma RetoneTien()
    ensures Retone("tiễn") == "tiễn"
  {
    assert "t" + "iê"[1 := 'ễ'] + "n" == "tiễn";
    LookupEntry(4, 0);
    assert ApplyTone('ê', 4) == 'ễ';
    StripTien();
    ToneOfTien();
    SplitTien();
    RetoneVia("tiễn", 4, Parts("t", "iê", "n"), 1);
  }

  /** "giải" strips to "giai". */
  lemma StripGiai()
    ensures StripWord("giải") == "giai"
  {
    NotInTable('g');
    LookupEntry(5, 0);
    LookupEntry(0, 3);
    assert BaseOf('g') == 'g' && BaseOf('i') == 'i' && BaseOf('ả') == 'a';
    StripIs("giải", "giai");
  }

  /** The tone of "giải" is the hook-above, on its third character. */
  lemma ToneOfGiai()
    ensures FirstTone("giải") == 3
  {
    NotInTable('g');
    LookupEntry(5, 0);
    LookupEntry(0, 3);
    assert ToneOf("giải"[0]) == 0;
    assert ToneOf("giải"[1]) == 0;
    assert ToneOf("giải"[2]) == 3;
    FirstToneIs("giải", 2);
  }

  /** The initial of "giai" is "gi", past "gh", which shares its first letter. */
  lemma InitialOfGiai()
    ensures InitialLength("giai") == 2
  {
    LowerWordIs("giai", "giai");
    assert IsPrefix(Initials[9], "giai");
    InitialIs("giai", 9);
  }

  /** "ai" has no final. */
  lemma NoFinalInAi()
    ensures FinalLength("ai") == 0
  {
    NoFinalAtEnd("a", 'i');
    assert "a" + ['i'] == "ai";
  }

  /** "giai" splits into "gi", "ai" and "". */
  lemma SplitGiai()
    ensures Split("giai") == Parts("gi", "ai", "")
  {
    assert Cut("giai", 2, 0) == Parts("gi", "ai", "");
    assert "giai"[2..] == "ai";
    InitialOfGiai();
    NoFinalInAi();
  }

  /**
   * "giải" comes back as it is: with no final, the tone of the two-vowel
   * nucleus "ai" goes on its first vowel, where it already stands.
   */
  lemma RetoneGiai()
    ensures Retone("giải") == "giải"
  {
    assert "gi" + "ai"[0 := 'ả'] + "" == "giải";
    LookupEntry(0, 0);
    assert ApplyTone('a', 3) == 'ả';
    StripGiai();
    ToneOfGiai();
    SplitGiai();
    RetoneVia("giải", 3, Parts("gi", "ai", ""), 0);
  }

  /** "quyết" strips to "quyêt". */
  lemma StripQuyet()
    ensures StripWord("quyết") == "quyêt"
  {
    NotInTable('q');
    NotInTable('t');
    LookupEntry(9, 0);
    LookupEntry(11, 0);
    LookupEntry(4, 2);
    assert BaseOf('q') == 'q' && BaseOf('u') == 'u' && BaseOf('y') == 'y' && BaseOf('ế') == 'ê' && BaseOf('t') == 't';
    StripIs("quyết", "quyêt");
  }

  /** The tone of "quyết" is the acute, on its fourth character. */
  lemma ToneOfQuyet()
    ensures FirstTone("quyết") == 2
  {
    NotInTable('q');
    LookupEntry(9, 0);
    LookupEntry(11, 0);
    LookupEntry(4, 2);
    assert ToneOf("quyết"[0]) == 0;
    assert ToneOf("quyết"[1]) == 0;
    assert ToneOf("quyết"[2]) == 0;
    assert ToneOf("quyết"[3]) == 2;
    FirstToneIs("quyết", 3);
  }

  /** The initial of "quyêt" is "qu". */
  lemma InitialOfQuyet()
    ensures InitialLength("quyêt") == 2
  {
    LowerWordIs("quyêt", "quyêt");
    assert IsPrefix(Initials[10], "quyêt");
    InitialIs("quyêt", 10);
  }

  /** The final of "yêt" is "t". */
  lemma FinalOfYet()
    ensures FinalLength("yêt") == 1
  {
    LowerWordIs("yêt", "yêt");
    assert IsSuffix(Finals[3], "yêt");
    LateMismatchesMiss(Finals, "yêt", 3);
    FirstSuffixAt(Finals, "yêt", 3);
  }

  /** "quyêt" splits into "qu", "yê" and "t". */
  lemma SplitQuyet()
    ensures Split("quyêt") == Parts("qu", "yê", "t")
  {
    assert Cut("quyêt", 2, 1) == Parts("qu", "yê", "t");
    assert "quyêt"[2..] == "yêt";
    InitialOfQuyet();
    FinalOfYet();
  }

  /**
   * "quyết" comes back as it is: with a final, the tone of the two-vowel
   * nucleus "yê" goes on its last vowel, where it already stands.
   */
  lemma RetoneQuyet()
    ensures Retone("quyết") == "quyết"
  {
    assert "qu" + "yê"[1 := 'ế'] + "t" == "quyết";
    LookupEntry(4, 0);
    assert ApplyTone('ê', 2) == 'ế';
    StripQuyet();
    ToneOfQuyet();
    SplitQuyet();
    RetoneVia("quyết", 2, Parts("qu", "yê", "t"), 1);
  }

  /** "taù" strips to "tau". */
  lemma StripTau()
    ensures StripWord("taù") == "tau"
  {
    NotInTable('t');
    LookupEntry(0, 0);
    LookupEntry(9, 1);
    assert BaseOf('t') == 't' && BaseOf('a') == 'a' && BaseOf('ù') == 'u';
    StripIs("taù", "tau");
  }

  /** The tone of "taù" is the grave, on its third character. */
  lemma ToneOfTau()
    ensures FirstTone("taù") == 1
  {
    NotInTable('t');
    LookupEntry(0, 0);
    LookupEntry(9, 1);
    assert ToneOf("taù"[0]) == 0;
    assert ToneOf("taù"[1]) == 0;
    assert ToneOf("taù"[2]) == 1;
    FirstToneIs("taù", 2);
  }

  /** The initial of "tau" is "t", past "th" and "tr", which share its first letter. */
  lemma InitialOfTau()
    ensures InitialLength("tau") == 1
  {
    LowerWordIs("tau", "tau");
    assert IsPrefix(Initials[24], "tau");
    InitialIs("tau", 24);
  }

  /** "au" has no final. */
  lemma NoFinalInAu()
    ensures FinalLength("au") == 0
  {
    NoFinalAtEnd("a", 'u');
    assert "a" + ['u'] == "au";
  }

  /** "tau" splits into "t", "au" and "". */
  lemma SplitTau()
    ensures Split("tau") == Parts("t", "au", "")
  {
    assert Cut("tau", 1, 0) == Parts("t", "au", "");
    assert "tau"[1..] == "au";
    InitialOfTau();
    NoFinalInAu();
  }

  /**
   * "taù" becomes "tàu": with no final, the tone of the two-vowel nucleus
   * "au" moves to its first vowel.
   */
  lemma RetoneTau()
    ensures Retone("taù") == "tàu"
  {
    assert "t" + "au"[0 := 'à'] + "" == "tàu";
    LookupEntry(0, 0);
    assert ApplyTone('a', 1) == 'à';
    StripTau();
    ToneOfTau();
    SplitTau();
    RetoneVia("taù", 1, Parts("t", "au", ""), 0);
  }

  /** "gìa" strips to "gia". */
  lemma StripGia()
    ensures StripWord("gìa") == "gia"
  {
    NotInTable('g');
    LookupEntry(5, 1);
    LookupEntry(0, 0);
    assert BaseOf('g') == 'g' && BaseOf('ì') == 'i' && BaseOf('a') == 'a';
    StripIs("gìa", "gia");
  }

  /** The tone of "gìa" is the grave, on its second character. */
  lemma ToneOfGia()
    ensures FirstTone("gìa") == 1
  {
    NotInTable('g');
    LookupEntry(5, 1);
    LookupEntry(0, 0);
    assert ToneOf("gìa"[0]) == 0;
    assert ToneOf("gìa"[1]) == 1;
    FirstToneIs("gìa", 1);
  }

  /** The initial of "gia" is "gi", past "gh", which shares its first letter. */
  lemma InitialOfGia()
    ensures InitialLength("gia") == 2
  {
    LowerOfSmall("gia");
    InitialIs("gia", 9);
  }

  /** "gia" splits into "gi", "a" and "". */
  lemma SplitGia()
    ensures Split("gia") == Parts("gi", "a", "")
  {
    assert Cut("gia", 2, 0) == Parts("gi", "a", "");
    assert "gia"[2..] == "a";
    InitialOfGia();
    NoFinalInA();
  }

  /**
   * "gìa" becomes "già": the "i" belongs to the initial "gi", so the tone
   * moves to the one-vowel nucleus "a".
   */
  lemma RetoneGia()
    ensures Retone("gìa") == "già"
  {
    assert "gi" + "a"[0 := 'à'] + "" == "già";
    LookupEntry(0, 0);
    assert ApplyTone('a', 1) == 'à';
    StripGia();
    ToneOfGia();
    SplitGia();
    RetoneVia("gìa", 1, Parts("gi", "a", ""), 0);
  }

  /** "noí" strips to "noi". */
  lemma StripNoi()
    ensures StripWord("noí") == "noi"
  {
    NotInTable('n');
    LookupEntry(6, 0);
    LookupEntry(5, 2);
    assert BaseOf('n') == 'n' && BaseOf('o') == 'o' && BaseOf('í') == 'i';
    StripIs("noí", "noi");
  }

  /** The tone of "noí" is the acute, on its third character. */
  lemma ToneOfNoi()
    ensures FirstTone("noí") == 2
  {
    NotInTable('n');
    LookupEntry(6, 0);
    LookupEntry(5, 2);
    assert ToneOf("noí"[0]) == 0;
    assert ToneOf("noí"[1]) == 0;
    assert ToneOf("noí"[2]) == 2;
    FirstToneIs("noí", 2);
  }

  /** The initial of "noi" is "n", past "ngh", "nh" and "ng", which share its first letter. */
  lemma InitialOfNoi()
    ensures InitialLength("noi") == 1
  {
    LowerWordIs("noi", "noi");
    assert IsPrefix(Initials[20], "noi");
    InitialIs("noi", 20);
  }

  /** "oi" has no final. */
  lemma NoFinalInOi()
    ensures FinalLength("oi") == 0
  {
    NoFinalAtEnd("o", 'i');
    assert "o" + ['i'] == "oi";
  }

  /** "noi" splits into "n", "oi" and "". */
  lemma SplitNoi()
    ensures Split("noi") == Parts("n", "oi", "")
  {
    assert Cut("noi", 1, 0) == Parts("n", "oi", "");
    assert "noi"[1..] == "oi";
    InitialOfNoi();
    NoFinalInOi();
  }

  /**
   * "noí" becomes "nói": with no final, the tone of the two-vowel nucleus
   * "oi" moves to its first vowel.
   */
  lemma RetoneNoi()
    ensures Retone("noí") == "nói"
  {
    assert "n" + "oi"[0 := 'ó'] + "" == "nói";
    LookupEntry(6, 0);
    assert ApplyTone('o', 2) == 'ó';
    StripNoi();
    ToneOfNoi();
    SplitNoi();
    RetoneVia("noí", 2, Parts("n", "oi", ""), 0);
  }

  /** "C" and "h" are not vowels. */
  lemma UntonedCh()
    ensures ToneOf('C') == 0 && ToneOf('h') == 0
  {
    NotInTable('C');
    NotInTable('h');
  }

  /** "n" and "g" are not vowels. */
  lemma UntonedNg()
    ensures ToneOf('n') == 0 && ToneOf('g') == 0
  {
    NotInTable('n');
    NotInTable('g');
  }

  /** "ư" and "o" are base vowels. */
  lemma UntonedVowels()
    ensures ToneOf('ư') == 0 && ToneOf('o') == 0
  {
    LookupEntry(10, 0);
    LookupEntry(6, 0);
  }

  /** No character of "Chưong" carries a tone. */
  lemma ToneOfChuong()
    ensures FirstTone("Chưong") == 0
  {
    UntonedCh();
    UntonedNg();
    UntonedVowels();
    var w := "Chưong";
    assert ToneOf(w[0]) == 0 && ToneOf(w[1]) == 0 && ToneOf(w[2]) == 0;
    assert ToneOf(w[3]) == 0 && ToneOf(w[4]) == 0 && ToneOf(w[5]) == 0;
  }

  /**
   * "Chưong" comes back as it is: none of its characters carries a tone, so
   * no horn is added to its "o", although the sample expects "chương".
   */
  lemma RetoneChuong()
    ensures Retone("Chưong") == "Chưong"
  {
    ToneOfChuong();
    UntonedIsKept("Chưong");
  }

  /** "lái" strips to "lai". */
  lemma StripLai()
    ensures StripWord("lái") == "lai"
  {
    NotInTable('l');
    LookupEntry(0, 2);
    LookupEntry(5, 0);
    assert BaseOf('l') == 'l' && BaseOf('á') == 'a' && BaseOf('i') == 'i';
    StripIs("lái", "lai");
  }

  /** The tone of "lái" is the acute, on its second character. */
  lemma ToneOfLai()
    ensures FirstTone("lái") == 2
  {
    NotInTable('l');
    LookupEntry(0, 2);
    assert ToneOf("lái"[0]) == 0;
    assert ToneOf("lái"[1]) == 2;
    FirstToneIs("lái", 1);
  }

  /** The initial of "lai" is "l". */
  lemma InitialOfLai()
    ensures InitialLength("lai") == 1
  {
    LowerOfSmall("lai");
    assert IsPrefix(Initials[18], "lai");
    InitialIs("lai", 18);
  }

  /** "lai" splits into "l", "ai" and "". */
  lemma SplitLai()
    ensures Split("lai") == Parts("l", "ai", "")
  {
    assert Cut("lai", 1, 0) == Parts("l", "ai", "");
    assert "lai"[1..] == "ai";
    InitialOfLai();
    NoFinalInAi();
  }

  /**
   * "lái" comes back as it is: with no final, the tone of the two-vowel
   * nucleus "ai" stays on its first vowel.
   */
  lemma RetoneLai()
    ensures Retone("lái") == "lái"
  {
    assert "l" + "ai"[0 := 'á'] + "" == "lái";
    LookupEntry(0, 0);
    assert ApplyTone('a', 2) == 'á';
    StripLai();
    ToneOfLai();
    SplitLai();
    RetoneVia("lái", 2, Parts("l", "ai", ""), 0);
  }
}
