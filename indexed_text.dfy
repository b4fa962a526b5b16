/**
  The view of a text that LIME's `IndexedString` offers to the explainer and the merger.
  Its construction (tokenizing, building the vocabulary) is external: the model takes its
  results as data.
*/
module IndexedText {

  /**
    - `raw`: the unmodified text (`raw_string()`);
    - `words`: the vocabulary, word id `i` naming `words[i]` (`word(i)`, `num_words()`);
    - `positions`: for each word id, the positions of its occurrences (`positions[i]`);
    - `removing`: the text with the given word ids removed (`inverse_removing`).
  */
  datatype IndexedString = IndexedString(
    raw: string,
    words: seq<string>,
    positions: seq<seq<int>>,
    removing: seq<nat> -> string)
  {
    function NumWords(): nat { |words| }

    /** Every word id has a list of positions. */
    predicate Valid() { |positions| == |words| }
  }
}
