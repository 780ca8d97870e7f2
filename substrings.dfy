/** Python's substring test `word in text`, used on query text and on request bodies alike. */
module Substrings {
  /** `word` appears in `text` starting at position `i`. */
  predicate OccursAt(word: string, text: string, i: int) {
    0 <= i <= |text| - |word| && text[i..i + |word|] == word
  }

  /** Python's `word in text`. */
  predicate Occurs(word: string, text: string) {
    exists i | 0 <= i <= |text| - |word| :: OccursAt(word, text, i)
  }
}
