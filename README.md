# Vietnamese tone repositioning, modelled in Dafny

This project models a Vietnamese text normaliser. The normaliser moves each
word's tone mark onto the vowel where it belongs. For every word token it:

- strips the tone from every vowel and remembers the tone of the first
  toned vowel;
- splits the tone-free word into an initial consonant cluster, a vowel
  nucleus and a final consonant cluster;
- puts the tone back on one vowel of the nucleus. The vowel is chosen by
  the nucleus's length and by whether the syllable has a final.

Tokens that are neither alphabetic nor numeric pass through unchanged. The
rewritten tokens are joined back into one text.

Modules, one file each:

- `Search` (`search.dfy`): an `Option` type, plus the first-match scans over
  a list of clusters and what they find.
- `VowelTable` (`vowel_table.dfy`): the 12 × 6 vowel table and its reverse
  index from a character to its (row, tone) position. Also the two
  character operations: stripping a vowel to its base, and putting a tone
  on a base vowel.
- `ToneExtractor` (`tone_extractor.dfy`): stripping a whole word and finding
  its first tone.
- `Syllable` (`syllable.dfy`): the initial, nucleus and final split.
- `Rewriter` (`rewriter.dfy`): the target-vowel rule, the rewrite of one
  token, and the rewrite of a token sequence.
- `WorkedExamples` (`worked_examples.dfy`): rewrites of words from the
  normaliser's own sample text, proved value by value: "Qủa" → "Quả",
  "gìa" → "già", "noí" → "nói", "hoà" → "hòa" and "taù" → "tàu".
  "giải", "quyết", "tiễn" and "lái" come back as they are, and so does
  "Chưong", which the sample expects to become "chương". One constructed
  word, "Oà" → "Oa", shows the upper-case quirk.

The operations that work step by step are methods with loops, each proved
equal to a specification function:

- building the reverse index;
- stripping a word;
- putting a tone on a vowel;
- the two cluster scans of the split;
- the token loop of the rewriter.

Properties are proved about those specification functions:

- the split matches the longest cluster;
- stripping is idempotent;
- the rewrite keeps the word's letters;
- when the word has a tone position and the vowel there is a lower-case
  base vowel, the rewrite carries exactly one tone, the word's first tone,
  on that vowel. When that vowel is not a base vowel, for instance an
  upper-case one, the rewrite carries no tone at all. Here a tone is one
  the vowel table records: upper-case toned letters, which the table does
  not hold, are not counted, and they are kept as written. Without a tone
  position the token comes back as written, with all of its tones;
- rewriting is idempotent;
- rewriting distributes over concatenation of token lists;
- untoned text is left unchanged.

The model keeps the behaviour of the code, including three quirks:

- The table holds lower-case vowels only. When the target vowel is upper
  case, the tone is dropped, not moved: "Oà" becomes "Oa"
  (`WorkedExamples.RetoneOa`, `Rewriter.ToneLost`).
- Splitting "qua" gives the initial "qu", the nucleus "a" and no final. The
  docstring of `split_syllable_parts` lists ("", "a", "") for "qua", but
  the code cuts "qu" as an initial. The model follows the code
  (`Syllable.SplitQua`).
- A token with no tone is returned as written (lines 148-151). The comment
  beside the second sample text (line 207) expects "chưong" to become
  "chương", but no character of "Chưong" carries a tone, so the code adds
  no horn and keeps the upper-case "C": "Chưong" comes back unchanged
  (`WorkedExamples.RetoneChuong`).

The reverse index `nguyen_am_to_ids` is a module-level dictionary in the
source. In the model it is a map built by `VowelTable.BuildIndex`. The
methods that use it take it as a parameter and require it to be that
index (`IsReverseIndex`).

## Model

| member | source | states |
|---|---|---|
| Search.FirstPrefix | nlp_processing_normalize_vietnamese.py:102-106 | the scan that stops at the first matching cluster: a hit is a listed cluster that starts the word; no hit means no listed cluster starts it |
| Search.FirstSuffix | nlp_processing_normalize_vietnamese.py:111-114 | the scan that stops at the first matching cluster: a hit is a listed cluster that ends the word; no hit means no listed cluster ends it |
| Search.FirstPrefixIsLongest | nlp_processing_normalize_vietnamese.py:102-106 | on a list sorted longest first, the first cluster that starts the word is a longest one |
| Search.FirstSuffixIsLongest | nlp_processing_normalize_vietnamese.py:111-114 | on a list sorted longest first, the first cluster that ends the word is a longest one |
| Search.FirstPrefixAt | nlp_processing_normalize_vietnamese.py:102-106 | the scan stops at the k-th cluster when it starts the word and no earlier cluster does (`break` at line 106) |
| Search.FirstSuffixAt | nlp_processing_normalize_vietnamese.py:111-114 | the scan stops at the k-th cluster when it ends the word and no earlier cluster does (`break` at line 114) |
| Search.FirstPrefixNone | nlp_processing_normalize_vietnamese.py:102-106 | the scan finds nothing when every cluster differs from the word in its first character |
| Search.FirstSuffixNone | nlp_processing_normalize_vietnamese.py:111-114 | the scan finds nothing when every cluster differs from the word in its last character |
| Syllable.InitialsProfile | nlp_processing_normalize_vietnamese.py:9-14 | the sorted initial clusters: 27 entries, one of length 3, then ten of length 2, then sixteen of length 1 |
| Syllable.FinalsProfile | nlp_processing_normalize_vietnamese.py:16-20 | the sorted final clusters: 8 entries, three of length 2, then five of length 1 |
| Syllable.ClustersLongestFirst | nlp_processing_normalize_vietnamese.py:13-14 | both cluster lists are ordered by non-increasing length, as sorting by length in reverse makes them |
| Syllable.ClustersNonEmpty | nlp_processing_normalize_vietnamese.py:9-18 | no cluster is the empty string |
| VowelTable.TableShape | nlp_processing_normalize_vietnamese.py:30-43 | the table has 12 rows of 6 tone columns |
| VowelTable.EntriesDistinct | nlp_processing_normalize_vietnamese.py:30-43 | no character occupies two positions of the table, so building the index never overwrites an entry |
| VowelTable.FindFrom | nlp_processing_normalize_vietnamese.py:47-50 | the row-major scan of the table for a character; what it finds is stated by `VowelTable.LookupSound` and `VowelTable.LookupEntry` |
| VowelTable.Lookup | nlp_processing_normalize_vietnamese.py:67 | the reverse index as a function: the position of a character in the table, or none (the `.get` at line 67) |
| VowelTable.LookupEntry | nlp_processing_normalize_vietnamese.py:47-50 | the index maps the character at row r, column t to (r, t) |
| VowelTable.LookupSound | nlp_processing_normalize_vietnamese.py:47-50 | a position found for a character is inside the table and holds that character |
| VowelTable.RecordStep | nlp_processing_normalize_vietnamese.py:49-50 | recording the entry at (i, j) keeps the map exact on every position visited so far, and on nothing else |
| VowelTable.AllRowsDone | nlp_processing_normalize_vietnamese.py:47-50 | a map exact on all 72 positions is the reverse index |
| VowelTable.BuildIndex | nlp_processing_normalize_vietnamese.py:47-50 | the double loop over rows and tone columns builds exactly the reverse index |
| VowelTable.ToneOf | nlp_processing_normalize_vietnamese.py:67-69 | a character's tone is below 6, and is 0 for any character outside the table |
| VowelTable.BaseOf | nlp_processing_normalize_vietnamese.py:76-79 | a table vowel becomes column 0 of its row and any other character is kept; stated by `VowelTable.BaseOfKeepsRow` and `VowelTable.BaseOfIdempotent` |
| VowelTable.ApplyTone | nlp_processing_normalize_vietnamese.py:121-126 | the entry at column t of the row whose base is the character, or the character itself; stated by `VowelTable.StripAfterApply` and `VowelTable.ApplyToNonBase` |
| VowelTable.ApplyToneToVowelChar | nlp_processing_normalize_vietnamese.py:121-126 | scanning for the row whose base is the character gives the entry at the tone's column, or the character itself when no row starts with it |
| VowelTable.BaseOfKeepsRow | nlp_processing_normalize_vietnamese.py:76-79 | stripping turns a vowel into the base of its own row and keeps every other character |
| VowelTable.BaseIsFixed | nlp_processing_normalize_vietnamese.py:76-79 | a base vowel has tone 0 and strips to itself |
| VowelTable.BaseOfIdempotent | nlp_processing_normalize_vietnamese.py:76-79 | stripping twice is stripping once, and a stripped character has no tone |
| VowelTable.StripAfterApply | nlp_processing_normalize_vietnamese.py:121-126 | putting tone t on a base vowel gives a vowel of tone t that strips back to that base |
| VowelTable.ApplyToNonBase | nlp_processing_normalize_vietnamese.py:126 | putting a tone on anything that is not a base vowel, such as an upper-case vowel, leaves it unchanged |
| ToneExtractor.StripWord | nlp_processing_normalize_vietnamese.py:66-81 | the word with every character stripped, of the same length; its content is stated by `ToneExtractor.StripWordKeepsRows` |
| ToneExtractor.StripWordKeepsRows | nlp_processing_normalize_vietnamese.py:66-81 | the stripped word has the same length; each vowel becomes the base of its row; every other character is kept |
| ToneExtractor.FirstToned | nlp_processing_normalize_vietnamese.py:71-74 | the index of the first toned character: every character before it has tone 0, and the one at it has a tone |
| ToneExtractor.FirstTone | nlp_processing_normalize_vietnamese.py:61-74 | the word's tone is below 6, and is 0 exactly when no character carries a tone |
| ToneExtractor.RemoveToneFromWord | nlp_processing_normalize_vietnamese.py:55-81 | the loop returns the stripped word and the tone of the first toned vowel |
| ToneExtractor.StripIdempotent | nlp_processing_normalize_vietnamese.py:55-81 | stripping a stripped word changes nothing and finds tone 0 |
| ToneExtractor.FirstToneIs | nlp_processing_normalize_vietnamese.py:71-74 | the first toned character decides the tone: when none before the k-th character carries a tone and the k-th does, the word's tone is that one, whatever follows |
| ToneExtractor.SingleToneFound | nlp_processing_normalize_vietnamese.py:71-74 | a word with exactly one toned character yields that character's tone, wherever it stands |
| ToneExtractor.StripUpdate | nlp_processing_normalize_vietnamese.py:66-79 | stripping works character by character: replacing one character replaces its stripped form alone |
| Syllable.Lower | nlp_processing_normalize_vietnamese.py:103 | lower-casing gives a small Latin letter exactly for a Latin letter of either case; A to Z move up by 32 code points to a to z, Đ becomes đ and every other character is kept |
| Syllable.LowerWord | nlp_processing_normalize_vietnamese.py:103 | the lower-cased word has the length of the word, so cutting the word at a matched length is well defined |
| Syllable.PrefixCut | nlp_processing_normalize_vietnamese.py:102-106 | the length cut off the front of the word by the scan is at most the word's length; which cluster it is, `Syllable.PrefixCutIsLongest` states |
| Syllable.SuffixCut | nlp_processing_normalize_vietnamese.py:110-114 | the length cut off the back of the rest is at most its length; which cluster it is, `Syllable.SuffixCutIsLongest` states |
| Syllable.InitialLength | nlp_processing_normalize_vietnamese.py:101-106 | the initial is never longer than the word |
| Syllable.FinalLength | nlp_processing_normalize_vietnamese.py:108-114 | the final is never longer than what follows the initial |
| Syllable.Cut | nlp_processing_normalize_vietnamese.py:104-117 | the three parts rejoin to the word; the initial and final have the cut lengths; nucleus and final are what follows the initial |
| Syllable.Split | nlp_processing_normalize_vietnamese.py:85-119 | the initial, nucleus and final rejoin to the word |
| Syllable.CutInitial | nlp_processing_normalize_vietnamese.py:101-106 | the scan over the sorted initials cuts off the first cluster that starts the lower-cased word, keeping the word's own case |
| Syllable.CutFinal | nlp_processing_normalize_vietnamese.py:108-114 | the scan over the sorted finals takes the first cluster that ends the lower-cased rest; it takes nothing when the rest is empty |
| Syllable.SplitSyllableParts | nlp_processing_normalize_vietnamese.py:85-119 | the method returns exactly `Split` of the word |
| Syllable.PrefixCutIsLongest | nlp_processing_normalize_vietnamese.py:102-106 | on non-empty clusters sorted longest first, the first-match scan cuts the longest cluster that starts the lower-cased word, and cuts nothing exactly when none does |
| Syllable.SuffixCutIsLongest | nlp_processing_normalize_vietnamese.py:110-114 | on non-empty clusters sorted longest first, the first-match scan cuts the longest cluster that ends the lower-cased rest, and cuts nothing exactly when none does |
| Syllable.InitialIsLongestMatch | nlp_processing_normalize_vietnamese.py:101-106 | the initial is the longest initial cluster that starts the word, in lower case; it is empty exactly when no cluster starts it |
| Syllable.FinalIsLongestMatch | nlp_processing_normalize_vietnamese.py:108-114 | the final is the longest final cluster that ends what follows the initial, in lower case; it is empty exactly when none ends it |
| Syllable.SplitHoang | nlp_processing_normalize_vietnamese.py:90-93 | "hoang" splits into "h", "oa", "ng" |
| Syllable.SplitQua | nlp_processing_normalize_vietnamese.py:103-106 | "qua" splits into "qu", "a" and an empty final (the code's result, not the docstring's) |
| Syllable.InitialIs | nlp_processing_normalize_vietnamese.py:102-106 | the initial is the k-th cluster when that cluster starts the lower-cased word and every earlier cluster differs from it in its first or second letter |
| Syllable.NoFinalAtEnd | nlp_processing_normalize_vietnamese.py:110-114 | a word whose last letter is a small letter other than c, g, h, m, n, p and t has no final |
| Syllable.NoFinalInA | nlp_processing_normalize_vietnamese.py:110-114 | "a" ends with no final cluster |
| Syllable.SplitCh | nlp_processing_normalize_vietnamese.py:93 | "ch" is all initial: the nucleus and the final are empty |
| Rewriter.TargetIndex | nlp_processing_normalize_vietnamese.py:163-179 | a target exists exactly for nuclei of 1 to 3 vowels; it is the last vowel when there is a final or a single vowel, otherwise the one before the last |
| Rewriter.PlaceIn | nlp_processing_normalize_vietnamese.py:159-182 | a tone position exists only for a toned word with a non-empty nucleus, and lies inside the nucleus |
| Rewriter.PositionIn | nlp_processing_normalize_vietnamese.py:154-182 | a tone position exists only for a non-zero tone, and lies inside the word |
| Rewriter.TonePosition | nlp_processing_normalize_vietnamese.py:146-182 | a token's tone position lies inside the token, and exists only when the token carries a tone |
| Rewriter.Place | nlp_processing_normalize_vietnamese.py:182-186 | the rejoined word with the tone put on the target vowel has the length of the three parts |
| Rewriter.Retone | nlp_processing_normalize_vietnamese.py:146-190 | the rewrite of a token keeps its length |
| Rewriter.RewriteToken | nlp_processing_normalize_vietnamese.py:141-143 | a token that is neither alphabetic nor numeric is returned as written; every rewrite keeps the token's length |
| Rewriter.RewriteAll | nlp_processing_normalize_vietnamese.py:139-190 | one rewritten token per token, in order, each rewritten on its own |
| Rewriter.RewriteAllStep | nlp_processing_normalize_vietnamese.py:139-190 | handling one more token appends its rewrite to the list |
| Rewriter.AddTonesToText | nlp_processing_normalize_vietnamese.py:129-192 | the token loop, with its fallbacks and its target choice, computes exactly `RewriteText` of the tokens |
| Rewriter.PlaceAsUpdate | nlp_processing_normalize_vietnamese.py:182-186 | rebuilding the word from the initial, the toned nucleus and the final is a one-character update of the rejoined word at the tone position; both succeed or fail together |
| Rewriter.RetoneAsUpdate | nlp_processing_normalize_vietnamese.py:146-190 | with no tone position the token is returned as written; otherwise the result is the stripped token with the first tone put on the character at the tone position |
| Rewriter.RetoneKeepsSkeleton | nlp_processing_normalize_vietnamese.py:146-190 | the rewrite strips to the same word as the token: only tones move |
| Rewriter.ToneLandsOnTarget | nlp_processing_normalize_vietnamese.py:182-186 | when the target is a base vowel, the rewrite carries the token's first tone on the target and no tone elsewhere |
| Rewriter.ToneLost | nlp_processing_normalize_vietnamese.py:182-186 | when the target is not a base vowel, the rewrite is the stripped token and carries no tone |
| Rewriter.LandedToneIsFixed | nlp_processing_normalize_vietnamese.py:146-190 | a token whose tone landed on its target is left alone by a second rewrite |
| Rewriter.RetoneIdempotent | nlp_processing_normalize_vietnamese.py:146-190 | rewriting a rewritten token changes nothing |
| Rewriter.RewriteAllIdempotent | nlp_processing_normalize_vietnamese.py:139-190 | rewriting a rewritten token list changes nothing |
| Rewriter.Concat | nlp_processing_normalize_vietnamese.py:192 | the tokens joined with nothing between them; `Rewriter.ConcatAppend` states how joining splits |
| Rewriter.RewriteText | nlp_processing_normalize_vietnamese.py:129-192 | the rewritten text: every token rewritten, then joined; `Rewriter.AddTonesToText` is proved to compute it |
| Rewriter.ConcatAppend | nlp_processing_normalize_vietnamese.py:192 | joining two token lists one after the other is joining each and concatenating |
| Rewriter.RewriteAllAppend | nlp_processing_normalize_vietnamese.py:139-190 | rewriting two token lists one after the other rewrites each, in order |
| Rewriter.RewriteTextAppend | nlp_processing_normalize_vietnamese.py:139-192 | the rewrite of two token lists in sequence is the concatenation of their rewrites |
| Rewriter.UntonedIsKept | nlp_processing_normalize_vietnamese.py:148-151 | a token with no tone is returned as written |
| Rewriter.FallbackKeepsToken | nlp_processing_normalize_vietnamese.py:159-188 | a token whose stripped word has an empty nucleus, or one of more than three vowels, has no tone position and is returned as written, with its tones |
| Rewriter.UntonedTokensKept | nlp_processing_normalize_vietnamese.py:139-151 | a list of tokens none of which carries a tone is kept as it is |
| Rewriter.UntonedTextUnchanged | nlp_processing_normalize_vietnamese.py:139-192 | a text none of whose tokens carries a tone comes back unchanged |
| WorkedExamples.StripQua | nlp_processing_normalize_vietnamese.py:197 | "Qủa" strips to "Qua" with the hook-above tone |
| WorkedExamples.SplitUpperQua | nlp_processing_normalize_vietnamese.py:103-106 | "Qua" splits into "Qu" and "a": the cluster is matched in lower case and cut in the word's case |
| WorkedExamples.RetoneQua | nlp_processing_normalize_vietnamese.py:197 | "Qủa" is rewritten to "Quả" |
| WorkedExamples.StripHoa | nlp_processing_normalize_vietnamese.py:206 | "hoà" strips to "hoa" with the grave tone |
| WorkedExamples.SplitHoa | nlp_processing_normalize_vietnamese.py:85-119 | "hoa" splits into "h", "oa" and an empty final |
| WorkedExamples.RetoneHoa | nlp_processing_normalize_vietnamese.py:206-207 | "hoà" is rewritten to "hòa" |
| WorkedExamples.StripOa | nlp_processing_normalize_vietnamese.py:55-81 | "Oà" strips to "Oa" with the grave tone |
| WorkedExamples.SplitOa | nlp_processing_normalize_vietnamese.py:85-119 | "Oa" is all nucleus |
| WorkedExamples.RetoneOa | nlp_processing_normalize_vietnamese.py:182-186 | "Oà" is rewritten to "Oa": the tone is lost, because the upper-case target has no row of its own |
| WorkedExamples.StripTien | nlp_processing_normalize_vietnamese.py:55-81 | "tiễn" strips to "tiên" |
| WorkedExamples.ToneOfTien | nlp_processing_normalize_vietnamese.py:61-74 | the first tone of "tiễn" is 4 (tilde) |
| WorkedExamples.InitialOfTien | nlp_processing_normalize_vietnamese.py:102-106 | the initial of "tiên" is found past earlier clusters that share its first letter ("th", "tr") |
| WorkedExamples.FinalOfIen | nlp_processing_normalize_vietnamese.py:110-114 | the final of "iên" is "n", found past "ch", "nh", "ng", "t" and "c" |
| WorkedExamples.SplitTien | nlp_processing_normalize_vietnamese.py:85-119 | "tiên" splits into "t", "iê", "n" |
| WorkedExamples.RetoneTien | nlp_processing_normalize_vietnamese.py:206-207 | "tiễn" comes back as it is: with a final, the tone of a two-vowel nucleus stays on its last vowel |
| WorkedExamples.StripGiai | nlp_processing_normalize_vietnamese.py:55-81 | "giải" strips to "giai" |
| WorkedExamples.ToneOfGiai | nlp_processing_normalize_vietnamese.py:61-74 | the first tone of "giải" is 3 (hook above) |
| WorkedExamples.InitialOfGiai | nlp_processing_normalize_vietnamese.py:102-106 | the initial of "giai" is found past earlier clusters that share its first letter ("gh") |
| WorkedExamples.SplitGiai | nlp_processing_normalize_vietnamese.py:85-119 | "giai" splits into "gi", "ai", "" |
| WorkedExamples.RetoneGiai | nlp_processing_normalize_vietnamese.py:206-207 | "giải" comes back as it is: with no final, the tone of a two-vowel nucleus stays on its first vowel |
| WorkedExamples.StripQuyet | nlp_processing_normalize_vietnamese.py:55-81 | "quyết" strips to "quyêt" |
| WorkedExamples.ToneOfQuyet | nlp_processing_normalize_vietnamese.py:61-74 | the first tone of "quyết" is 2 (acute) |
| WorkedExamples.FinalOfYet | nlp_processing_normalize_vietnamese.py:110-114 | the final of "yêt" is "t", found past "ch", "nh" and "ng" |
| WorkedExamples.SplitQuyet | nlp_processing_normalize_vietnamese.py:85-119 | "quyêt" splits into "qu", "yê", "t" |
| WorkedExamples.RetoneQuyet | nlp_processing_normalize_vietnamese.py:206-207 | "quyết" comes back as it is: with a final, the tone of a two-vowel nucleus stays on its last vowel |
| WorkedExamples.StripTau | nlp_processing_normalize_vietnamese.py:55-81 | "taù" strips to "tau" |
| WorkedExamples.ToneOfTau | nlp_processing_normalize_vietnamese.py:61-74 | the first tone of "taù" is 1 (grave) |
| WorkedExamples.InitialOfTau | nlp_processing_normalize_vietnamese.py:102-106 | the initial of "tau" is found past earlier clusters that share its first letter ("th", "tr") |
| WorkedExamples.SplitTau | nlp_processing_normalize_vietnamese.py:85-119 | "tau" splits into "t", "au", "" |
| WorkedExamples.RetoneTau | nlp_processing_normalize_vietnamese.py:206 | "taù" is rewritten to "tàu": with no final, the tone moves to the first vowel of the nucleus |
| WorkedExamples.StripGia | nlp_processing_normalize_vietnamese.py:55-81 | "gìa" strips to "gia" |
| WorkedExamples.ToneOfGia | nlp_processing_normalize_vietnamese.py:61-74 | the first tone of "gìa" is 1 (grave) |
| WorkedExamples.InitialOfGia | nlp_processing_normalize_vietnamese.py:102-106 | the initial of "gia" is found past earlier clusters that share its first letter ("gh") |
| WorkedExamples.SplitGia | nlp_processing_normalize_vietnamese.py:85-119 | "gia" splits into "gi", "a", "" |
| WorkedExamples.RetoneGia | nlp_processing_normalize_vietnamese.py:197-200 | "gìa" is rewritten to "già": the "i" belongs to the initial "gi", so the tone moves to "a" |
| WorkedExamples.StripNoi | nlp_processing_normalize_vietnamese.py:55-81 | "noí" strips to "noi" |
| WorkedExamples.ToneOfNoi | nlp_processing_normalize_vietnamese.py:61-74 | the first tone of "noí" is 2 (acute) |
| WorkedExamples.InitialOfNoi | nlp_processing_normalize_vietnamese.py:102-106 | the initial of "noi" is found past earlier clusters that share its first letter ("ngh", "nh", "ng") |
| WorkedExamples.SplitNoi | nlp_processing_normalize_vietnamese.py:85-119 | "noi" splits into "n", "oi", "" |
| WorkedExamples.RetoneNoi | nlp_processing_normalize_vietnamese.py:197-199 | "noí" is rewritten to "nói": with no final, the tone moves to the first vowel of the nucleus |
| WorkedExamples.UntonedCh | nlp_processing_normalize_vietnamese.py:61-74 | "C" and "h" carry no tone |
| WorkedExamples.UntonedNg | nlp_processing_normalize_vietnamese.py:61-74 | "n" and "g" carry no tone |
| WorkedExamples.UntonedVowels | nlp_processing_normalize_vietnamese.py:30-43 | "ư" and "o" are base vowels, with no tone |
| WorkedExamples.ToneOfChuong | nlp_processing_normalize_vietnamese.py:61-74 | no character of "Chưong" carries a tone |
| WorkedExamples.RetoneChuong | nlp_processing_normalize_vietnamese.py:148-151 | "Chưong" comes back unchanged, although the comment beside the sample (line 207) expects "chương" |
| WorkedExamples.StripLai | nlp_processing_normalize_vietnamese.py:55-81 | "lái" strips to "lai" |
| WorkedExamples.ToneOfLai | nlp_processing_normalize_vietnamese.py:61-74 | the first tone of "lái" is 2 (acute) |
| WorkedExamples.InitialOfLai | nlp_processing_normalize_vietnamese.py:102-106 | the initial of "lai" is "l", found past every earlier cluster |
| WorkedExamples.SplitLai | nlp_processing_normalize_vietnamese.py:85-119 | "lai" splits into "l", "ai", "" |
| WorkedExamples.RetoneLai | nlp_processing_normalize_vietnamese.py:206-207 | "lái" comes back as it is: with no final, the tone of a two-vowel nucleus stays on its first vowel |

## Left out

- Unicode NFC normalisation (`normalize_unicode_nfc`, lines 5-7, and its
  call at line 134) is left out. The model works on text that is already
  composed.
- Tokenisation by regular expression (line 135) is left out.
  `Rewriter.AddTonesToText` takes the token sequence as its input. A
  consequence that is not modelled: characters matched by none of the
  regex's alternatives, such as `_`, never reach the token list, so the
  source drops them from the output.
- `str.isalpha` and `str.isdigit` (line 141) are parameters of the
  rewriter: two functions from a token to a boolean.
- `str.lower` (lines 103 and 112) is modelled only for A to Z and Đ.
  Every other character is kept. The clusters hold only a to z and đ, so
  this is all that matching can see. The one exception is U+0130 (İ),
  which Python lower-cases to two code points. That shifts the slicing,
  and the model does not capture it.
- The seventh column of the vowel table (the typing hint, lines 31-42) is
  left out. The code never reads it.
- `ALL_UNACCENTED_VOWELS` (line 53) is never used by the code and is left
  out.
- The demonstration driver (lines 194-211) is left out: it prints its
  results. `WorkedExamples` proves the rewrite of the sample words "Qủa",
  "gìa", "noí", "hoà", "taù", "giải", "quyết", "tiễn", "lái" and
  "Chưong", not of the whole sample texts. For "Chưong" the result differs
  from the expectation in the comment at line 207 (see the quirks above).
- VowelTable.ApplyToneToVowelChar: requires the tone to be below 6. The
  source would read the hint column for tone 6, but no caller passes a
  tone above 5.
- ToneExtractor.RemoveToneFromWord and Rewriter.AddTonesToText: take the
  reverse index as a parameter instead of reading a global dictionary, and
  require it to be the index that `VowelTable.BuildIndex` builds.
