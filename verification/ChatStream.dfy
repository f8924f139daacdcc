/** The loop behind the streaming chat endpoint: guard, citation events and what is persisted. */
module ChatStream {
  import opened Text
  import opened TokenGuards
  import opened Citations

  /** What the model's stream yields next; `Timeout` is the heartbeat interval passing. */
  datatype Chunk = Timeout | UsageReport | Thinking | Unexpected | Answer(delta: string)

  datatype Event = TokenEvent(text: string) | CitationEvent(n: nat) | Heartbeat

  /** The answer text carried by a stream of chunks. */
  function AnswerText(chunks: seq<Chunk>): string {
    if chunks == [] then ""
    else
      AnswerText(chunks[..|chunks| - 1]) +
      match chunks[|chunks| - 1] { case Answer(delta) => delta case _ => "" }
  }

  lemma OneMoreChunk(chunks: seq<Chunk>, i: nat)
    requires i < |chunks|
    ensures AnswerText(chunks[..i + 1]) ==
      AnswerText(chunks[..i]) + match chunks[i] { case Answer(delta) => delta case _ => "" }
  {
    assert chunks[..i + 1][..i] == chunks[..i];
  }

  /** A chunk carries its delta when it is an answer chunk, and no text otherwise. */
  lemma AnswerTextOne(c: Chunk)
    ensures AnswerText([c]) == match c { case Answer(delta) => delta case _ => "" }
  {
    OneMoreChunk([c], 0);
    assert [c][..1] == [c] && [c][..0] == [];
  }

  /** The chunks' texts follow one another. */
  lemma {:induction false} AnswerTextAppend(a: seq<Chunk>, b: seq<Chunk>)
    ensures AnswerText(a + b) == AnswerText(a) + AnswerText(b)
  {
    if b == [] {
      assert a + b == a;
    } else {
      AnswerTextLast(a + b);
      AnswerTextLast(b);
      LastOfAppend(a, b);
      hide AnswerText;
      AnswerTextAppend(a, b[..|b| - 1]);
    }
  }

  function TextOf(c: Chunk): string {
    match c case Answer(delta) => delta case _ => ""
  }

  lemma AnswerTextLast(chunks: seq<Chunk>)
    requires chunks != []
    ensures AnswerText(chunks) == AnswerText(chunks[..|chunks| - 1]) + TextOf(chunks[|chunks| - 1])
  {
  }

  lemma LastOfAppend(a: seq<Chunk>, b: seq<Chunk>)
    requires b != []
    ensures (a + b)[..|a + b| - 1] == a + b[..|b| - 1] && (a + b)[|a + b| - 1] == b[|b| - 1]
  {
  }

  /** What the client shows: the token events, end to end. */
  function Shown(events: seq<Event>): string {
    if events == [] then ""
    else
      Shown(events[..|events| - 1]) +
      match events[|events| - 1] { case TokenEvent(t) => t case _ => "" }
  }

  function Cited(events: seq<Event>): seq<nat> {
    if events == [] then []
    else
      Cited(events[..|events| - 1]) +
      match events[|events| - 1] { case CitationEvent(n) => [n] case _ => [] }
  }

  lemma OneMore(events: seq<Event>, e: Event)
    ensures Shown(events + [e]) == Shown(events) + match e { case TokenEvent(t) => t case _ => "" }
    ensures Cited(events + [e]) == Cited(events) + match e { case CitationEvent(n) => [n] case _ => [] }
  {
    assert (events + [e])[..|events|] == events;
  }

  lemma CitedBefore(before: string, raw: string)
    requires before <= raw
    ensures CitedIndices(Normalized(before)) <= CitedIndices(Normalized(raw))
  {
    hide Normalized, CitedIndices;
    assert raw == before + raw[|before|..];
    CitedGrows(before, raw[|before|..]);
  }

  lemma NoneTwice(normalized: string)
    ensures var found := CitedIndices(normalized);
      forall i, j | 0 <= i < j < |found| :: found[i] != found[j]
  {
    hide Markers, Indices;
  }

  /** Sends the citations not sent before. */
  method CiteNew(raw: string, events: seq<Event>, cited: seq<nat>, ghost before: string)
    returns (events': seq<Event>, cited': seq<nat>)
    requires before <= raw && cited == CitedIndices(Normalized(before)) == Cited(events)
    ensures cited' == CitedIndices(Normalized(raw)) == Cited(events')
    ensures Shown(events') == Shown(events)
  {
    hide Normalized, CitedIndices, Cited, Shown;
    var normalized := NormalizeCitations(raw);
    var found := ExtractCitedIndices(normalized);
    CitedBefore(before, raw);
    NoneTwice(normalized);
    events', cited' := events, cited;
    for i := 0 to |found|
      invariant cited' == if i < |cited| then cited else found[..i]
      invariant cited' == Cited(events') && Shown(events') == Shown(events)
    {
      var n := found[i];
      assert n in cited' <==> i < |cited|;
      if n !in cited' {
        cited' := cited' + [n];
        OneMore(events', CitationEvent(n));
        events' := events' + [CitationEvent(n)];
      }
    }
  }

  /** The token events, the citation events and the guard agree about the answer received so far. */
  ghost predicate InStep(guard: TokenGuard, raw: string, events: seq<Event>, cited: seq<nat>)
    reads guard
  {
    && guard.Valid() && guard.whitespaceLimit == WHITESPACE_RUNAWAY_LIMIT
    && raw == guard.fed && Shown(events) == guard.emitted
    && Cited(events) == cited == CitedIndices(Normalized(raw))
  }

  /** The body of the loop for a chunk that carries answer text. */
  method TakeDelta(guard: TokenGuard, delta: string, raw: string, events: seq<Event>, cited: seq<nat>)
    returns (events': seq<Event>, raw': string, cited': seq<nat>)
    requires InStep(guard, raw, events, cited) && !guard.flushed
    modifies guard
    ensures InStep(guard, raw', events', cited') && !guard.flushed
    ensures raw' == raw + delta
  {
    hide Normalized, CitedIndices, Truncated, Holding;
    raw' := raw + delta;
    var emitted := guard.Feed(delta);
    events' := events;
    if emitted != "" {
      OneMore(events, TokenEvent(emitted));
      events' := events + [TokenEvent(emitted)];
    }
    events', cited' := CiteNew(raw', events', cited, raw);
  }

  /** The stream loop: until the chunks run out or the guard truncates the answer. */
  method StreamAnswer(chunks: seq<Chunk>)
    returns (events: seq<Event>, raw: string, cited: seq<nat>, ghost taken: nat)
    ensures taken <= |chunks| && raw == AnswerText(chunks[..taken])
    ensures forall m | 0 <= m < taken :: NeverTrips(WHITESPACE_RUNAWAY_LIMIT, AnswerText(chunks[..m]))
    ensures taken < |chunks| ==> exists n: nat :: TripsAt(WHITESPACE_RUNAWAY_LIMIT, raw, n)
    ensures Shown(events) == Delivered(WHITESPACE_RUNAWAY_LIMIT, raw)
    ensures Cited(events) == cited == CitedIndices(Normalized(raw))
  {
    hide Normalized, CitedIndices, Delivered, TripsAt, Holding, NeverTrips, AnswerText, Shown, Cited;
    var guard := new TokenGuard();
    events, raw, cited := [], "", [];
    NothingYet();
    taken := 0;
    for i := 0 to |chunks|
      invariant fresh(guard) && InStep(guard, raw, events, cited) && !guard.flushed && !guard.done
      invariant raw == AnswerText(chunks[..i])
      invariant taken == i
      invariant forall m | 0 <= m < i :: NeverTrips(WHITESPACE_RUNAWAY_LIMIT, AnswerText(chunks[..m]))
    {
      OneMoreChunk(chunks, i);
      NotYetTripped(guard);
      taken := i + 1;
      match chunks[i] {
        case Timeout =>
          OneMore(events, Heartbeat);
          events := events + [Heartbeat];
        case UsageReport =>
        case Thinking =>
        case Unexpected =>
        case Answer(delta) =>
          events, raw, cited := TakeDelta(guard, delta, raw, events, cited);
          if guard.done {
            break;
          }
      }
    }
    assert chunks[..|chunks|] == chunks;
    var tail := guard.Flush();
    if tail != "" {
      OneMore(events, TokenEvent(tail));
      events := events + [TokenEvent(tail)];
    }
  }

  lemma NotYetTripped(guard: TokenGuard)
    requires guard.Valid() && !guard.done && !guard.flushed
    ensures NeverTrips(guard.whitespaceLimit, guard.fed)
  {
  }

  lemma NothingYet()
    ensures CitedIndices(Normalized("")) == [] == Cited([]) && Shown([]) == "" == AnswerText([])
  {
  }

  /** The sources shown before the first token: every retrieved chunk, numbered from 1. */
  function AllSources<C>(hits: seq<C>): seq<Source<C>> {
    seq(|hits|, i requires 0 <= i < |hits| => Source(i + 1, hits[i]))
  }

  /** The streaming path's persisted sources: those of `sources` whose number was cited. */
  function KeepCited<C>(sources: seq<Source<C>>, cited: seq<nat>): seq<Source<C>> {
    if sources == [] then []
    else (if sources[0].n in cited then [sources[0]] else []) + KeepCited(sources[1..], cited)
  }

  lemma {:induction false} KeepCitedMember<C(!new)>(sources: seq<Source<C>>, cited: seq<nat>, s: Source<C>)
    ensures s in KeepCited(sources, cited) <==> s in sources && s.n in cited
  {
    if sources != [] {
      KeepCitedMember(sources[1..], cited, s);
      assert sources == [sources[0]] + sources[1..];
    }
  }

  ghost predicate Ascending<C>(sources: seq<Source<C>>) {
    forall i, j | 0 <= i < j < |sources| :: sources[i].n < sources[j].n
  }

  /** The kept sources stand in the order of their numbers. */
  lemma {:induction false} KeepCitedAscends<C(!new)>(sources: seq<Source<C>>, cited: seq<nat>)
    requires Ascending(sources)
    ensures Ascending(KeepCited(sources, cited))
  {
    if sources != [] {
      KeepCitedAscends(sources[1..], cited);
      var kept := KeepCited(sources[1..], cited);
      forall j | 0 <= j < |kept|
        ensures sources[0].n < kept[j].n
      {
        KeepCitedMember(sources[1..], cited, kept[j]);
      }
    }
  }

  /** Streaming and one-shot chat persist the same sources for the same answer. */
  lemma SamePersistedSources<C(!new)>(answer: string, hits: seq<C>, s: Source<C>)
    ensures
      var cited := CitedIndices(Normalized(answer));
      var kept := KeepCited(AllSources(hits), cited);
      (s in kept <==> s in Resolved(cited, hits)) && Ascending(kept)
  {
    hide CitedIndices, Normalized, KeepCited, Resolved;
    var cited := CitedIndices(Normalized(answer));
    KeepCitedAscends(AllSources(hits), cited);
    KeepCitedMember(AllSources(hits), cited, s);
    ResolvedMember(cited, hits, s);
    if 1 <= s.n <= |hits| && s.chunk == hits[s.n - 1] {
      assert AllSources(hits)[s.n - 1] == s;
    }
  }
}
