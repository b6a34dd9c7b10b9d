/** The shipped spelling: rows of words, and which rows may be adjacent. */
module BambooSpellingTables {
  import opened BambooSpelling

  const FIRST_CONSONANT_SEQS :=
    ["b d đ g gh m n nh p ph r s t tr v z", "c h k kh qu th", "ch gi l ng ngh x", "đ l", "h"]
  const VOWEL_SEQS := [
    "ê i ua uê uy y", "a iê oa uyê yê", "â ă e o oo ô ơ " + "oe u ư uâ uô ươ", "oă", "uơ",
    "ai ao au âu ay " + "ây eo êu ia " + "iêu iu oai oao oay oeo oi " + "ôi ơi ưa uây ui ưi uôi ươi "
    + "ươu ưu uya uyu yêu",
    "ă", "i"]
  const LAST_CONSONANT_SEQS := ["ch nh", "c ng", "m n p t", "k", "c"]
  const CV_MATRIX: seq<seq<nat>> := [[0, 1, 2, 5], [0, 1, 2, 3, 4, 5], [0, 1, 2, 3, 5], [6], [7]]
  const VC_MATRIX: seq<seq<nat>> := [[0, 2], [0, 1, 2], [1, 2], [1, 2], [], [], [3], [4]]

  // The matrices cover every row the look-ups can return.
  const SOURCE_SPELLING: Spelling :=
    SpellingData(FIRST_CONSONANT_SEQS, VOWEL_SEQS, LAST_CONSONANT_SEQS, CV_MATRIX, VC_MATRIX)
}
