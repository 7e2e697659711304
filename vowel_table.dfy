/**
 * The vowel table of the normaliser: twelve vowel rows (a, ă, â, e, ê, i, o,
 * ô, ơ, u, ư, y), each listing the base vowel and its five toned forms, the
 * reverse index from a vowel character to its (row, tone) position, and the
 * two character operations built on them: stripping a vowel to its base and
 * putting a tone on a base vowel.
 */
module VowelTable {
  import opened Search

  /** A position in the table: the vowel row and the tone column. */
  datatype Pos = Pos(row: nat, tone: nat)

  /** Tone columns: 0 none, 1 grave, 2 acute, 3 hook above, 4 tilde, 5 dot below. */
  const ToneCount: nat := 6

  /**
   * The rows of the table, lower case only. Column 0 is the base vowel,
   * columns 1 to 5 carry the tones in the order of `ToneCount`.
   */
  const Rows: seq<seq<char>> := [
    ['a', 'à', 'á', 'ả', 'ã', 'ạ'],
    ['ă', 'ằ', 'ắ', 'ẳ', 'ẵ', 'ặ'],
    ['â', 'ầ', 'ấ', 'ẩ', 'ẫ', 'ậ'],
    ['e', 'è', 'é', 'ẻ', 'ẽ', 'ẹ'],
    ['ê', 'ề', 'ế', 'ể', 'ễ', 'ệ'],
    ['i', 'ì', 'í', 'ỉ', 'ĩ', 'ị'],
    ['o', 'ò', 'ó', 'ỏ', 'õ', 'ọ'],
    ['ô', 'ồ', 'ố', 'ổ', 'ỗ', 'ộ'],
    ['ơ', 'ờ', 'ớ', 'ở', 'ỡ', 'ợ'],
    ['u', 'ù', 'ú', 'ủ', 'ũ', 'ụ'],
    ['ư', 'ừ', 'ứ', 'ử', 'ữ', 'ự'],
    ['y', 'ỳ', 'ý', 'ỷ', 'ỹ', 'ỵ']
  ]

  const RowCount: nat := 12

  /** Every row has one entry per tone column. */
  lemma TableShape()
    ensures |Rows| == RowCount && forall i :: 0 <= i < RowCount ==> |Rows[i]| == ToneCount
  {
  }

  // The distinctness of the 72 entries is proved in four parts so that each
  // part stays a small proof obligation.

  lemma RowEntriesDistinct()
    ensures forall i, j, l :: 0 <= i < 12 && 0 <= j < l < 6 ==> Rows[i][j] != Rows[i][l]
  {
  }

  lemma LaterRowsAvoidRows0To1()
    ensures forall i, j, k, l :: 0 <= i < 2 && 0 <= j < 6 && i < k < 12 && 0 <= l < 6 ==> Rows[i][j] != Rows[k][l]
  {
  }

  lemma LaterRowsAvoidRows2To4()
    ensures forall i, j, k, l :: 2 <= i < 5 && 0 <= j < 6 && i < k < 12 && 0 <= l < 6 ==> Rows[i][j] != Rows[k][l]
  {
  }

  lemma LaterRowsAvoidRows5To11()
    ensures forall i, j, k, l :: 5 <= i < 12 && 0 <= j < 6 && i < k < 12 && 0 <= l < 6 ==> Rows[i][j] != Rows[k][l]
  {
  }

  /** No character occupies two positions of the table. */
  lemma EntriesDistinct()
    ensures forall i, j, k, l ::
      0 <= i < RowCount && 0 <= j < ToneCount && 0 <= k < RowCount && 0 <= l < ToneCount && Rows[i][j] == Rows[k][l]
      ==> i == k && j == l
  {
    RowEntriesDistinct();
    LaterRowsAvoidRows0To1();
    LaterRowsAvoidRows2To4();
    LaterRowsAvoidRows5To11();
  }

  /**
   * Scans the table in row-major order from column `j` of row `i` for `c`,
   * giving the first position that holds it.
   */
  function FindFrom(c: char, i: nat, j: nat): (r: Option<Pos>)
    decreases RowCount - i, ToneCount - j
  {
    if i >= RowCount then None
    else if j >= ToneCount then FindFrom(c, i + 1, 0)
    else if Rows[i][j] == c then Some(Pos(i, j))
    else FindFrom(c, i, j + 1)
  }

  /**
   * The reverse index as a function: the position of `c` in the table, or
   * `None` when `c` is not one of its 72 characters.
   */
  function Lookup(c: char): (r: Option<Pos>) {
    FindFrom(c, 0, 0)
  }

  /** A position found by the scan holds the character looked for. */
  lemma {:induction false} FindFromSound(c: char, i: nat, j: nat)
    requires FindFrom(c, i, j).Some?
    ensures var p := FindFrom(c, i, j).value;
      p.row < RowCount && p.tone < ToneCount && Rows[p.row][p.tone] == c
    decreases RowCount - i, ToneCount - j
  {
    TableShape();
    if i >= RowCount {
    } else if j >= ToneCount {
      FindFromSound(c, i + 1, 0);
    } else if Rows[i][j] != c {
      FindFromSound(c, i, j + 1);
    }
  }

  /** The scan from (i, j) finds every entry at or after (i, j) at its own position. */
  lemma {:induction false} FindFromEntry(r: nat, t: nat, i: nat, j: nat)
    requires r < RowCount && t < ToneCount && !Before(Pos(r, t), i, j) && j <= ToneCount
    ensures FindFrom(Rows[r][t], i, j) == Some(Pos(r, t))
    decreases RowCount - i, ToneCount - j
  {
    TableShape();
    if j == ToneCount {
      FindFromEntry(r, t, i + 1, 0);
    } else if (r, t) != (i, j) {
      EntryIsNew(r, t);
      EntriesDistinct();
      assert Rows[i][j] != Rows[r][t];
      FindFromEntry(r, t, i, j + 1);
    }
  }

  /** The reverse index maps every one of the 72 entries back to its own position. */
  lemma LookupEntry(r: nat, t: nat)
    requires r < RowCount && t < ToneCount
    ensures Lookup(Rows[r][t]) == Some(Pos(r, t))
  {
    FindFromEntry(r, t, 0, 0);
  }

  /** Whatever the reverse index gives for `c` is a position of the table that holds `c`. */
  lemma LookupSound(c: char)
    requires Lookup(c).Some?
    ensures Lookup(c).value.row < RowCount && Lookup(c).value.tone < ToneCount
    ensures Rows[Lookup(c).value.row][Lookup(c).value.tone] == c
  {
    FindFromSound(c, 0, 0);
  }

  /** `m` is the reverse index: it holds exactly what `Lookup` finds. */
  ghost predicate IsReverseIndex(m: map<char, Pos>) {
    forall c :: Lookup(c) == (if c in m then Some(m[c]) else None)
  }

  /** The entry at (i, j) differs from every entry visited before it. */
  lemma EntryIsNew(i: nat, j: nat)
    requires i < RowCount && j < ToneCount
    ensures forall r, t :: 0 <= r < RowCount && 0 <= t < ToneCount && Before(Pos(r, t), i, j) ==> Rows[r][t] != Rows[i][j]
  {
    EntriesDistinct();
  }

  /** Position `p` comes before column `j` of row `i` in row-major order. */
  predicate Before(p: Pos, i: nat, j: nat) {
    p.row < i || (p.row == i && p.tone < j)
  }

  /**
   * `m` records exactly the table positions visited before (i, j), each
   * under its own character.
   */
  ghost predicate IndexedBefore(m: map<char, Pos>, i: nat, j: nat) {
    && (forall c :: c in m ==>
          m[c].row < RowCount && m[c].tone < ToneCount && Before(m[c], i, j) && Rows[m[c].row][m[c].tone] == c)
    && (forall r, t :: 0 <= r < RowCount && 0 <= t < ToneCount && Before(Pos(r, t), i, j) ==>
          Rows[r][t] in m && m[Rows[r][t]] == Pos(r, t))
  }

  /** Recording the entry at (i, j) extends the visited part by one column. */
  lemma RecordStep(m: map<char, Pos>, i: nat, j: nat)
    requires i < RowCount && j < ToneCount && IndexedBefore(m, i, j)
    ensures IndexedBefore(m[Rows[i][j] := Pos(i, j)], i, j + 1)
  {
    TableShape();
    EntryIsNew(i, j);
  }

  /** Having visited every row is having built the reverse index. */
  lemma AllRowsDone(m: map<char, Pos>)
    requires IndexedBefore(m, RowCount, 0)
    ensures IsReverseIndex(m)
  {
    forall c | c in m ensures Lookup(c) == Some(m[c]) {
      LookupEntry(m[c].row, m[c].tone);
    }
    forall c | Lookup(c).Some? ensures c in m {
      LookupSound(c);
    }
  }

  /**
   * Builds the reverse index the way the normaliser does, by visiting the
   * table row by row and column by column and recording each position.
   */
  method BuildIndex() returns (m: map<char, Pos>)
    ensures IsReverseIndex(m)
  {
    TableShape();
    m := map[];
    for i := 0 to RowCount
      invariant IndexedBefore(m, i, 0)
    {
      var row := Rows[i];
      for j := 0 to ToneCount
        invariant IndexedBefore(m, i, j)
      {
        RecordStep(m, i, j);
        m := m[row[j] := Pos(i, j)];
      }
    }
    AllRowsDone(m);
  }

  /** `c` is one of the 72 vowel characters of the table. */
  predicate IsVowel(c: char) {
    Lookup(c).Some?
  }

  /** `c` is a vowel without a tone: the column-0 entry of some row. */
  predicate IsBase(c: char) {
    Lookup(c).Some? && Lookup(c).value.tone == 0
  }

  /**
   * The tone a character carries: its column when it is in the table, 0
   * otherwise.
   */
  function ToneOf(c: char): (t: nat)
    ensures t < ToneCount
    ensures t != 0 ==> IsVowel(c)
  {
    match Lookup(c)
    case Some(p) => LookupSound(c); p.tone
    case None => 0
  }

  /**
   * The character with its tone removed: a vowel of the table becomes the
   * base of its row, any other character stays as it is.
   */
  function BaseOf(c: char): (r: char) {
    match Lookup(c)
    case Some(p) => LookupSound(c); Rows[p.row][0]
    case None => c
  }

  /**
   * The tone `t` put on `b`: the entry in `b`'s row at column `t` when `b` is
   * a base vowel, `b` unchanged otherwise (an upper-case or already toned
   * vowel, or a consonant).
   */
  function ApplyTone(b: char, t: nat): (r: char)
    requires t < ToneCount
  {
    match Lookup(b)
    case Some(p) => if p.tone == 0 then LookupSound(b); Rows[p.row][t] else b
    case None => b
  }

  /**
   * Puts tone `t` on a base vowel by scanning the rows for the one whose
   * column 0 is `b`.
   */
  method ApplyToneToVowelChar(b: char, t: nat) returns (r: char)
    requires t < ToneCount
    ensures r == ApplyTone(b, t)
  {
    TableShape();
    for i := 0 to |Rows|
      invariant forall k :: 0 <= k < i ==> Rows[k][0] != b
    {
      if Rows[i][0] == b {
        LookupEntry(i, 0);
        return Rows[i][t];
      }
    }
    if Lookup(b).Some? {
      LookupSound(b);
    }
    return b;
  }

  /**
   * Stripping keeps a vowel in its row and takes its tone away, and leaves
   * every other character alone.
   */
  lemma BaseOfKeepsRow(c: char)
    ensures IsVowel(c) ==> IsBase(BaseOf(c)) && Lookup(BaseOf(c)).value.row == Lookup(c).value.row
    ensures !IsVowel(c) ==> BaseOf(c) == c
  {
    if IsVowel(c) {
      LookupSound(c);
      LookupEntry(Lookup(c).value.row, 0);
    }
  }

  /** A base vowel carries no tone and is its own base. */
  lemma BaseIsFixed(b: char)
    requires IsBase(b)
    ensures ToneOf(b) == 0 && BaseOf(b) == b
  {
    LookupSound(b);
  }

  /** Stripping a character twice is the same as stripping it once. */
  lemma BaseOfIdempotent(c: char)
    ensures BaseOf(BaseOf(c)) == BaseOf(c)
    ensures ToneOf(BaseOf(c)) == 0
  {
    BaseOfKeepsRow(c);
    if IsVowel(c) {
      BaseIsFixed(BaseOf(c));
    }
  }

  /**
   * Putting a tone on a base vowel and stripping it again gives back the
   * vowel and the tone.
   */
  lemma StripAfterApply(b: char, t: nat)
    requires IsBase(b) && t < ToneCount
    ensures BaseOf(ApplyTone(b, t)) == b
    ensures ToneOf(ApplyTone(b, t)) == t
  {
    LookupSound(b);
    LookupEntry(Lookup(b).value.row, t);
  }

  /** A tone put on anything but a base vowel leaves it unchanged. */
  lemma ApplyToNonBase(c: char, t: nat)
    requires !IsBase(c) && t < ToneCount
    ensures ApplyTone(c, t) == c
  {
  }
}
