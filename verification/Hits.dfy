/** A retrieved chunk, as the ranking pipeline passes it along. */
module Hits {
  import opened Text

  /**
   `title` is the normalized title key, `chars` the length of the text and `words` its
   white-space word count; `tokenCount` is the stored count, when there is one.
   */
  datatype Hit = Hit(
    chunkId: nat, docId: Option<nat>, title: string, docDate: Option<int>,
    chars: nat, words: nat, tokenCount: Option<nat>, score: real)
  {
    /** A stored count of zero is as good as none. */
    function Tokens(): nat {
      if tokenCount.Some? && tokenCount.value != 0 then tokenCount.value else words
    }
  }

  function ScoreOf(h: Hit): real {
    h.score
  }
}
