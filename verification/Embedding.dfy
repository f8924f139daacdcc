/** Embedding texts in concurrent batches, and matching the vectors back to the stored chunks. */
module Embedding {
  import opened Text

  /** The model: one vector per text. */
  type Embedder<!V> = string -> V

  function EmbedAll<V>(embed: Embedder<V>, texts: seq<string>): seq<V> {
    seq(|texts|, i requires 0 <= i < |texts| => embed(texts[i]))
  }

  /** The texts cut into batches of `size`; only the last may be shorter. */
  function Batches(texts: seq<string>, size: nat): seq<seq<string>>
    requires size >= 1
  {
    if texts == [] then []
    else if |texts| <= size then [texts]
    else [texts[..size]] + Batches(texts[size..], size)
  }

  function Flatten<T>(xss: seq<seq<T>>): seq<T> {
    if xss == [] then [] else xss[0] + Flatten(xss[1..])
  }

  function EmbedBatches<V>(embed: Embedder<V>, batches: seq<seq<string>>): seq<seq<V>> {
    seq(|batches|, i requires 0 <= i < |batches| => EmbedAll(embed, batches[i]))
  }

  /** Batch by batch or all at once: the same vectors in the same order. */
  lemma {:induction false} BatchesFlatten<V>(embed: Embedder<V>, texts: seq<string>, size: nat)
    requires size >= 1
    ensures Flatten(EmbedBatches(embed, Batches(texts, size))) == EmbedAll(embed, texts)
    decreases |texts|
  {
    var bs := Batches(texts, size);
    var es := EmbedBatches(embed, bs);
    if texts == [] {
    } else if |texts| <= size {
      assert es[1..] == [];
      assert es[0] == EmbedAll(embed, texts);
    } else {
      BatchesFlatten(embed, texts[size..], size);
      assert es[1..] == EmbedBatches(embed, bs[1..]);
      assert es[0] == EmbedAll(embed, texts[..size]);
    }
  }

  /** Every batch but the last is full, and the last is not empty. */
  lemma {:induction false} BatchSizes(texts: seq<string>, size: nat, k: nat)
    requires size >= 1 && k < |Batches(texts, size)|
    ensures 1 <= |Batches(texts, size)[k]| <= size
    ensures k < |Batches(texts, size)| - 1 ==> |Batches(texts, size)[k]| == size
    decreases |texts|
  {
    if k > 0 {
      BatchSizes(texts[size..], size, k - 1);
    }
  }

  function Below(n: nat): (r: set<nat>)
    ensures forall i :: i in r <==> 0 <= i < n
  {
    if n == 0 then {} else Below(n - 1) + {n - 1}
  }

  /**
   The batches run as tasks: a semaphore lets at most `slots` hold a slot, and any task in a slot
   may be the next to finish. Each writes its result at its own index.
   */
  method RunBatches<V>(embed: Embedder<V>, batches: seq<seq<string>>, slots: nat) returns (vectors: seq<V>)
    requires slots >= 1
    ensures vectors == Flatten(EmbedBatches(embed, batches))
  {
    hide Flatten, EmbedAll, Below;
    var results: seq<seq<V>> := seq(|batches|, _ => []);
    ghost var target := EmbedBatches(embed, batches);
    var waiting: set<nat>, inFlight: set<nat> := Below(|batches|), {};
    while waiting != {} || inFlight != {}
      invariant |results| == |target| == |batches| && waiting + inFlight <= Below(|batches|)
      invariant waiting !! inFlight && |inFlight| <= slots
      invariant forall i | 0 <= i < |results| :: i in waiting || i in inFlight || results[i] == target[i]
      decreases waiting, inFlight
    {
      var starts: bool := *;
      if inFlight == {} || (waiting != {} && |inFlight| < slots && starts) {
        var idx :| idx in waiting;
        waiting, inFlight := waiting - {idx}, inFlight + {idx};
      } else {
        var idx :| idx in inFlight;
        assert idx in waiting + inFlight;
        results := results[idx := EmbedAll(embed, batches[idx])];
        inFlight := inFlight - {idx};
      }
    }
    assert results == target;
    vectors := Flatten(results);
  }

  method EmbedTextsBatched<V>(embed: Embedder<V>, texts: seq<string>, batchSize: int, batchConcurrency: int)
    returns (vectors: seq<V>)
    ensures vectors == EmbedAll(embed, texts)
  {
    if texts == [] {
      return [];
    }
    var size := if batchSize >= 1 then batchSize else 1;
    var batches := Batches(texts, size);
    BatchesFlatten(embed, texts, size);
    if |batches| == 1 {
      vectors := EmbedAll(embed, batches[0]);
      assert EmbedBatches(embed, batches)[1..] == [];
      assert Flatten(EmbedBatches(embed, batches)) == EmbedBatches(embed, batches)[0] + [];
      return;
    }
    vectors := RunBatches(embed, batches, if batchConcurrency >= 1 then batchConcurrency else 1);
  }

  // ---------------------------------------------------------------- storing the chunks

  /** A prose chunk before it is stored; only structured chunking gives it an embedding text. */
  datatype Prose = Prose(text: string, embedText: Option<string>)

  datatype Stored<V> = Stored(ord: nat, text: string, embedText: string, embedding: V)

  /** `getattr(c, "embed_text", None) or c.text`. */
  function TextToEmbed(c: Prose): string {
    if c.embedText.Some? && c.embedText.value != "" then c.embedText.value else c.text
  }

  function TextsToEmbed(cs: seq<Prose>): seq<string> {
    seq(|cs|, i requires 0 <= i < |cs| => TextToEmbed(cs[i]))
  }

  function StoreProse<V>(ord: nat, c: Prose, structured: bool, embedding: V): Stored<V>
    requires structured <==> c.embedText.Some?
  {
    Stored(ord, c.text, if structured then c.embedText.value else c.text, embedding)
  }

  /**
   The stored chunk has its own number, text and embedding text, the text itself when it has no other,
   and the vector of its embedding text, or of its text when that is missing or empty.
   */
  predicate Keeps<V(==)>(s: Stored<V>, ord: nat, c: Prose, embed: Embedder<V>) {
    && s.ord == ord && s.text == c.text
    && match c.embedText
       case None => s.embedText == c.text && s.embedding == embed(c.text)
       case Some(t) => s.embedText == t && s.embedding == if t == "" then embed(c.text) else embed(t)
  }

  /** The chunks of one document as they are stored: prose first, then table artifacts, numbered in order. */
  method StoreChunks<V>(embed: Embedder<V>, prose: seq<Prose>, tableTexts: seq<string>, structured: bool,
                           batchSize: int, batchConcurrency: int)
    returns (stored: seq<Stored<V>>)
    requires forall k | 0 <= k < |prose| :: structured <==> prose[k].embedText.Some?
    ensures |stored| == |prose| + |tableTexts|
    ensures forall k | 0 <= k < |prose| :: stored[k] == StoreProse(k, prose[k], structured, embed(TextToEmbed(prose[k])))
    ensures forall k | 0 <= k < |prose| :: Keeps(stored[k], k, prose[k], embed)
    ensures forall k | |prose| <= k < |stored| ::
      var text := tableTexts[k - |prose|]; stored[k] == Stored(k, text, text, embed(text))
  {
    var proseTexts := TextsToEmbed(prose);
    var all := EmbedTextsBatched(embed, proseTexts + tableTexts, batchSize, batchConcurrency);
    var proseEmbeddings, tableEmbeddings := all[..|proseTexts|], all[|proseTexts|..];
    assert proseEmbeddings == EmbedAll(embed, proseTexts) && tableEmbeddings == EmbedAll(embed, tableTexts);
    stored := [];
    for ord := 0 to |prose|
      invariant |stored| == ord
      invariant forall k | 0 <= k < ord :: stored[k] == StoreProse(k, prose[k], structured, embed(TextToEmbed(prose[k])))
    {
      stored := stored + [StoreProse(ord, prose[ord], structured, proseEmbeddings[ord])];
    }
    var base := |prose|;
    for i := 0 to |tableTexts|
      invariant |stored| == base + i
      invariant forall k | 0 <= k < |prose| :: stored[k] == StoreProse(k, prose[k], structured, embed(TextToEmbed(prose[k])))
      invariant forall k | base <= k < base + i ::
        var text := tableTexts[k - base]; stored[k] == Stored(k, text, text, embed(text))
    {
      stored := stored + [Stored(base + i, tableTexts[i], tableTexts[i], tableEmbeddings[i])];
    }
  }

  /** A stored prose chunk carries the embedding of its own embedding text, which must not be empty when it is given. */
  lemma ProseCarriesItsEmbedding<V>(embed: Embedder<V>, ord: nat, c: Prose, structured: bool)
    requires structured <==> c.embedText.Some?
    ensures var s := StoreProse(ord, c, structured, embed(TextToEmbed(c)));
      s.embedding == embed(s.embedText) <==> c.embedText != Some("") || embed("") == embed(c.text)
  {
  }
}
