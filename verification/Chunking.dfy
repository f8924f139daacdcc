/** Cutting a document's word stream into overlapping windows. */
module Chunking {
  import opened Text

  // ---------------------------------------------------------------- words

  predicate NotSpace(c: char) {
    !PySpace(c)
  }

  /** `text.split()`. */
  function Words(s: string): seq<string>
    decreases |s|
  {
    if s == "" then []
    else if PySpace(s[0]) then Words(s[1..])
    else
      var n := Run(NotSpace, s);
      [s[..n]] + Words(s[n..])
  }

  predicate IsWord(w: string) {
    w != "" && forall i | 0 <= i < |w| :: !PySpace(w[i])
  }

  lemma {:induction false} WordsAreWords(s: string)
    ensures forall w | w in Words(s) :: IsWord(w)
    decreases |s|
  {
    if s != "" {
      if PySpace(s[0]) {
        WordsAreWords(s[1..]);
      } else {
        WordsAreWords(s[Run(NotSpace, s)..]);
      }
    }
  }

  lemma FirstWord(w: string, rest: string)
    requires IsWord(w) && (rest == "" || PySpace(rest[0]))
    ensures Words(w + rest) == [w] + Words(rest)
  {
    var s := w + rest;
    assert forall i | 0 <= i < |w| :: s[i] == w[i];
    RunIs(NotSpace, s, |w|);
    assert s[..|w|] == w && s[|w|..] == rest;
  }

  /** Words joined by single spaces split into the same words. */
  lemma {:induction false} WordsOfJoin(ws: seq<string>)
    requires forall w | w in ws :: IsWord(w)
    ensures Words(Join(" ", ws)) == ws
  {
    hide PySpace, Words;
    if |ws| == 0 {
      NoWords();
    } else if |ws| == 1 {
      FirstWord(ws[0], "");
      NoWords();
      assert ws[0] + "" == ws[0];
    } else {
      WordsOfJoin(ws[1..]);
      var rest := " " + Join(" ", ws[1..]);
      SpaceSkipped(Join(" ", ws[1..]));
      FirstWord(ws[0], rest);
      assert ws[0] + " " + Join(" ", ws[1..]) == ws[0] + rest;
    }
  }

  lemma NoWords()
    ensures Words("") == []
  {
  }

  lemma SpaceSkipped(s: string)
    ensures PySpace((" " + s)[0]) && Words(" " + s) == Words(s)
  {
    assert (" " + s)[1..] == s;
  }

  /** White space splits a text wherever it stands. */
  lemma {:induction false} WordsSplit(a: string, c: char, b: string)
    requires PySpace(c)
    ensures Words(a + [c] + b) == Words(a) + Words(b)
    decreases |a|
  {
    hide PySpace, Words;
    var s := a + [c] + b;
    if a == "" {
      NoWords();
      SpaceAway(c, b);
      assert s == [c] + b;
    } else if PySpace(a[0]) {
      WordsSplit(a[1..], c, b);
      SpaceAway(a[0], a[1..]);
      SpaceAway(a[0], a[1..] + [c] + b);
      assert a == [a[0]] + a[1..] && s == [a[0]] + (a[1..] + [c] + b);
    } else {
      var n := Run(NotSpace, a);
      var w, rest := a[..n], a[n..];
      WordsSplit(rest, c, b);
      FirstWord(w, rest);
      FirstWord(w, rest + [c] + b);
      assert a == w + rest && s == w + (rest + [c] + b);
    }
  }

  lemma SpaceAway(c: char, s: string)
    requires PySpace(c)
    ensures Words([c] + s) == Words(s)
  {
    assert ([c] + s)[1..] == s;
  }

  /** The characters of a text other than white space. */
  function Ink(s: string): string {
    if s == "" then "" else (if PySpace(s[0]) then "" else [s[0]]) + Ink(s[1..])
  }

  lemma {:induction false} InkAppend(a: string, b: string)
    ensures Ink(a + b) == Ink(a) + Ink(b)
  {
    hide PySpace;
    if a == "" {
      assert a + b == b;
    } else {
      assert (a + b)[1..] == a[1..] + b;
      InkAppend(a[1..], b);
      var c := if PySpace(a[0]) then "" else [a[0]];
      assert c + (Ink(a[1..]) + Ink(b)) == (c + Ink(a[1..])) + Ink(b);
    }
  }

  lemma {:induction false} InkOfWord(w: string)
    requires forall i | 0 <= i < |w| :: !PySpace(w[i])
    ensures Ink(w) == w
  {
    hide PySpace;
    if w != "" {
      InkOfWord(w[1..]);
      assert w == [w[0]] + w[1..];
    }
  }

  /** The words of a text, end to end, are the text without its white space. */
  lemma {:induction false} WordsKeepInk(s: string)
    ensures Concat(Words(s)) == Ink(s)
    decreases |s|
  {
    hide PySpace;
    if s != "" {
      if PySpace(s[0]) {
        WordsKeepInk(s[1..]);
      } else {
        var n := Run(NotSpace, s);
        WordsKeepInk(s[n..]);
        InkOfWord(s[..n]);
        InkAppend(s[..n], s[n..]);
        assert s[..n] + s[n..] == s;
        assert Words(s)[1..] == Words(s[n..]);
      }
    }
  }

  // ---------------------------------------------------------------- windows over any stream

  function Step(target: nat, overlap: int): (s: nat)
    ensures s >= 1
  {
    if target - overlap >= 1 then target - overlap else 1
  }

  function Window<T>(stream: seq<T>, target: nat, i: nat): seq<T>
    requires i <= |stream|
  {
    if i + target <= |stream| then stream[i..i + target] else stream[i..]
  }

  /** The windows from position `i` on; the one that reaches the end is the last. */
  function Windows<T>(stream: seq<T>, target: nat, step: nat, i: nat): seq<seq<T>>
    requires step >= 1
    decreases |stream| - i
  {
    if i >= |stream| then []
    else [Window(stream, target, i)] + if i + target >= |stream| then [] else Windows(stream, target, step, i + step)
  }

  /** The windows end to end, each without its first `overlap` elements. */
  function Rest<T>(windows: seq<seq<T>>, overlap: nat): seq<T> {
    if windows == [] then []
    else (if overlap <= |windows[0]| then windows[0][overlap..] else []) + Rest(windows[1..], overlap)
  }

  /** The first window whole, the later ones without what they share with the one before. */
  function Reassembled<T>(windows: seq<seq<T>>, overlap: nat): seq<T> {
    if windows == [] then [] else windows[0] + Rest(windows[1..], overlap)
  }

  lemma {:induction false} RestOfWindows<T>(stream: seq<T>, target: nat, step: nat, i: nat)
    requires 1 <= step <= target && i + (target - step) < |stream|
    ensures Rest(Windows(stream, target, step, i), target - step) == stream[i + (target - step)..]
    decreases |stream| - i
  {
    var o, w, next := target - step, Window(stream, target, i), i + step;
    WindowTail(stream, target, i, o);
    if i + target < |stream| {
      WindowsMore(stream, target, step, i);
      RestOfWindows(stream, target, step, next);
      assert next + o == i + target;
      hide Windows, Window, Rest;
      RestCons(w, Windows(stream, target, step, next), o);
    } else {
      WindowsLast(stream, target, step, i);
      hide Windows, Window, Rest;
      RestCons(w, [], o);
    }
  }

  lemma WindowsMore<T>(stream: seq<T>, target: nat, step: nat, i: nat)
    requires step >= 1 && i + target < |stream|
    ensures Windows(stream, target, step, i) == [Window(stream, target, i)] + Windows(stream, target, step, i + step)
  {
  }

  lemma WindowsLast<T>(stream: seq<T>, target: nat, step: nat, i: nat)
    requires step >= 1 && i < |stream| <= i + target
    ensures Windows(stream, target, step, i) == [Window(stream, target, i)]
  {
  }

  lemma WindowTail<T>(stream: seq<T>, target: nat, i: nat, o: nat)
    requires o <= target && i + o < |stream|
    ensures
      var w, later := Window(stream, target, i), if i + target < |stream| then stream[i + target..] else [];
      o <= |w| && w[o..] + later == stream[i + o..]
  {
  }

  lemma RestCons<T>(w: seq<T>, later: seq<seq<T>>, overlap: nat)
    requires overlap <= |w|
    ensures Rest([w] + later, overlap) == w[overlap..] + Rest(later, overlap)
    ensures Rest<T>([], overlap) == []
  {
    assert ([w] + later)[1..] == later;
  }

  lemma WindowsUnfold<T>(stream: seq<T>, target: nat, step: nat, i: nat)
    requires step >= 1
    ensures Windows(stream, target, step, i) ==
      if i >= |stream| then []
      else [Window(stream, target, i)] + if i + target >= |stream| then [] else Windows(stream, target, step, i + step)
  {
  }

  /** Dropping the first `target - step` elements of every window after the first gives the stream back. */
  lemma WindowsReassemble<T>(stream: seq<T>, target: nat, step: nat)
    requires 1 <= step <= target
    ensures Reassembled(Windows(stream, target, step, 0), target - step) == stream
  {
    WindowsStep(stream, target, step, 0);
    hide Windows, Rest;
    if target < |stream| {
      RestOfWindows(stream, target, step, step);
      ReassembledCons(stream[..target], Windows(stream, target, step, step), target - step);
      assert stream[..target] + stream[target..] == stream;
    } else {
      assert stream[0..] == stream;
      ReassembledCons(stream, [], target - step);
    }
  }

  lemma ReassembledCons<T>(w: seq<T>, later: seq<seq<T>>, overlap: nat)
    ensures Reassembled([w] + later, overlap) == w + Rest(later, overlap)
    ensures Reassembled([w], overlap) == w && Reassembled<T>([], overlap) == []
  {
    assert ([w] + later)[1..] == later;
    assert [w][1..] == [];
  }

  /** The least `k` with `k * b >= a`. */
  function CeilDiv(a: nat, b: nat): (k: nat)
    requires b >= 1
    ensures k * b >= a
    ensures k > 0 ==> (k - 1) * b < a
  {
    if a == 0 then 0
    else if a <= b then 1
    else
      var k := CeilDiv(a - b, b);
      assert (k + 1) * b == k * b + b && k * b == (k - 1) * b + b;
      k + 1
  }

  /** There are 1 + ceil(max(0, n - target) / step) windows. */
  lemma {:induction false} WindowCount<T>(stream: seq<T>, target: nat, step: nat, i: nat)
    requires step >= 1 && i < |stream| && step <= target
    ensures |Windows(stream, target, step, i)| ==
      1 + CeilDiv(if |stream| - i > target then |stream| - i - target else 0, step)
    decreases |stream| - i
  {
    if i + target < |stream| {
      WindowCount(stream, target, step, i + step);
    }
  }

  /** Where window `k` starts, counted from the window at `i`. */
  function StartOf(step: nat, i: nat, k: nat): nat
    decreases k
  {
    if k == 0 then i else StartOf(step, i + step, k - 1)
  }

  lemma {:induction false} StartsApart(step: nat, i: nat, k: nat)
    ensures StartOf(step, i, k) == i + k * step
    decreases k
  {
    if k > 0 {
      StartsApart(step, i + step, k - 1);
      assert k * step == (k - 1) * step + step;
    }
  }

  lemma {:induction false} WindowFrom<T>(stream: seq<T>, target: nat, step: nat, i: nat, k: nat)
    requires step >= 1 && k < |Windows(stream, target, step, i)|
    ensures StartOf(step, i, k) < |stream|
    ensures Windows(stream, target, step, i)[k] == Window(stream, target, StartOf(step, i, k))
    decreases k
  {
    hide Window;
    if k > 0 {
      WindowFrom(stream, target, step, i + step, k - 1);
    }
  }

  /** Window `k` starts `k` steps in. */
  lemma WindowAt<T>(stream: seq<T>, target: nat, step: nat, k: nat)
    requires step >= 1 && k < |Windows(stream, target, step, 0)|
    ensures k * step < |stream| && Windows(stream, target, step, 0)[k] == Window(stream, target, k * step)
  {
    hide Windows, Window;
    WindowFrom(stream, target, step, 0, k);
    StartsApart(step, 0, k);
  }

  ghost predicate IsPiece<T>(w: seq<T>, stream: seq<T>, target: nat) {
    w != [] && |w| <= target && forall x | x in w :: x in stream
  }

  lemma {:induction false} WindowsArePieces<T>(stream: seq<T>, target: nat, step: nat, i: nat)
    requires step >= 1 && target >= 1
    ensures forall w | w in Windows(stream, target, step, i) :: IsPiece(w, stream, target)
    decreases |stream| - i
  {
    WindowsUnfold(stream, target, step, i);
    hide Windows, Window, IsPiece;
    if i < |stream| {
      WindowIsPiece(stream, target, i);
      if i + target < |stream| {
        WindowsArePieces(stream, target, step, i + step);
      }
    }
  }

  lemma WindowIsPiece<T>(stream: seq<T>, target: nat, i: nat)
    requires target >= 1 && i < |stream|
    ensures IsPiece(Window(stream, target, i), stream, target)
  {
  }

  lemma WindowsNext<T>(stream: seq<T>, target: nat, step: nat, i: nat)
    requires step >= 1 && i < |stream| && target >= 1
    ensures Window(stream, target, i) != []
    ensures Windows(stream, target, step, i) ==
      [Window(stream, target, i)] + if i + target >= |stream| then [] else Windows(stream, target, step, i + step)
  {
  }

  lemma WindowsEnd<T>(stream: seq<T>, target: nat, step: nat)
    requires step >= 1
    ensures forall i: nat | i >= |stream| :: Windows(stream, target, step, i) == []
  {
  }

  lemma WindowsStep<T>(stream: seq<T>, target: nat, step: nat, i: nat)
    requires step >= 1
    ensures Windows(stream, target, step, i) ==
      if i >= |stream| then []
      else if i + target >= |stream| then [stream[i..]]
      else [stream[i..i + target]] + Windows(stream, target, step, i + step)
  {
    if i < |stream| && i + target == |stream| {
      assert stream[i..i + target] == stream[i..];
    }
  }

  // ---------------------------------------------------------------- plain pages

  /** A word and the page it came from. */
  datatype Placed<P> = Placed(word: string, place: P)

  datatype PageChunk = PageChunk(ord: nat, text: string, pageStart: nat, pageEnd: nat, tokenCount: nat)

  function PlaceWords<P>(words: seq<string>, place: P): seq<Placed<P>> {
    seq(|words|, i requires 0 <= i < |words| => Placed(words[i], place))
  }

  function WordsOf<P>(stream: seq<Placed<P>>): seq<string> {
    seq(|stream|, i requires 0 <= i < |stream| => stream[i].word)
  }

  /** The words of the pages in order, each with its page number, counted from 1. */
  function PageStream(pages: seq<string>): seq<Placed<nat>> {
    if pages == [] then []
    else PageStream(pages[..|pages| - 1]) + PlaceWords<nat>(Words(pages[|pages| - 1]), |pages|)
  }

  function MakePageChunk(ord: nat, window: seq<Placed<nat>>): PageChunk
    requires window != []
  {
    PageChunk(ord, Join(" ", WordsOf(window)), window[0].place, window[|window| - 1].place, |window|)
  }

  function PageChunks(windows: seq<seq<Placed<nat>>>): seq<PageChunk>
    requires [] !in windows
  {
    seq(|windows|, k requires 0 <= k < |windows| => MakePageChunk(k, windows[k]))
  }

  /** The chunks of a document given page by page. */
  function ChunkPagesSpec(pages: seq<string>, target: nat, overlap: int): seq<PageChunk>
    requires target >= 1
  {
    var stream := PageStream(pages);
    WindowsArePieces(stream, target, Step(target, overlap), 0);
    PageChunks(Windows(stream, target, Step(target, overlap), 0))
  }

  method ChunkPages(pages: seq<string>, target: nat, overlap: int) returns (chunks: seq<PageChunk>)
    requires target >= 1
    ensures chunks == ChunkPagesSpec(pages, target, overlap)
  {
    hide Windows, Window, PageChunks, MakePageChunk, Words, PlaceWords, PageStream;
    var stream: seq<Placed<nat>> := [];
    NoPages();
    for p := 0 to |pages|
      invariant stream == PageStream(pages[..p])
    {
      PageStreamSnoc(pages, p);
      stream := stream + PlaceWords<nat>(Words(pages[p]), p + 1);
    }
    assert pages[..|pages|] == pages;
    chunks := [];
    var i, n, step := 0, |stream|, Step(target, overlap);
    ghost var windows := [];
    WindowsArePieces(stream, target, step, 0);
    NoPageChunks();
    while i < n
      invariant [] !in windows && |chunks| == |windows| && chunks == PageChunks(windows)
      invariant windows + Windows(stream, target, step, i) == Windows(stream, target, step, 0)
      decreases n - i
    {
      WindowsNext(stream, target, step, i);
      var window := Window(stream, target, i);
      PageChunksSnoc(windows, window);
      windows := windows + [window];
      chunks := chunks + [MakePageChunk(|chunks|, window)];
      if i + target >= n {
        assert windows == Windows(stream, target, step, 0);
        break;
      }
      i := i + step;
    }
    WindowsEnd(stream, target, step);
    assert windows + [] == windows;
  }

  lemma NoPages()
    ensures PageStream([]) == []
  {
  }

  lemma PageStreamSnoc(pages: seq<string>, p: nat)
    requires p < |pages|
    ensures PageStream(pages[..p + 1]) == PageStream(pages[..p]) + PlaceWords<nat>(Words(pages[p]), p + 1)
  {
    assert pages[..p + 1][..p] == pages[..p];
  }

  lemma NoPageChunks()
    ensures PageChunks([]) == []
  {
  }

  lemma PageChunksSnoc(windows: seq<seq<Placed<nat>>>, window: seq<Placed<nat>>)
    requires [] !in windows && window != []
    ensures PageChunks(windows + [window]) == PageChunks(windows) + [MakePageChunk(|windows|, window)]
  {
    hide MakePageChunk;
  }

  /** The text of every chunk, cut back into words, is the words of its window. */
  lemma ChunkTextIsItsWords(pages: seq<string>, window: seq<Placed<nat>>, ord: nat)
    requires window != [] && forall x | x in window :: x in PageStream(pages)
    ensures Words(MakePageChunk(ord, window).text) == WordsOf(window)
  {
    StreamHoldsWords(pages);
    WordsOfJoin(WordsOf(window));
  }

  lemma {:induction false} StreamHoldsWords(pages: seq<string>)
    ensures forall x | x in PageStream(pages) :: IsWord(x.word) && 1 <= x.place <= |pages|
    ensures forall i, j | 0 <= i <= j < |PageStream(pages)| :: PageStream(pages)[i].place <= PageStream(pages)[j].place
  {
    hide Words, IsWord;
    if pages != [] {
      StreamHoldsWords(pages[..|pages| - 1]);
      WordsAreWords(pages[|pages| - 1]);
      var before := PageStream(pages[..|pages| - 1]);
      forall i | 0 <= i < |before|
        ensures before[i].place < |pages|
      {
        assert before[i] in before;
      }
    }
  }

  function ChunkWords(chunks: seq<PageChunk>): seq<seq<string>> {
    seq(|chunks|, k requires 0 <= k < |chunks| => Words(chunks[k].text))
  }

  function WindowWords<P>(windows: seq<seq<Placed<P>>>): seq<seq<string>> {
    seq(|windows|, k requires 0 <= k < |windows| => WordsOf(windows[k]))
  }

  lemma {:induction false} WordsOfRest<P>(windows: seq<seq<Placed<P>>>, overlap: nat)
    ensures Rest(WindowWords(windows), overlap) == WordsOf(Rest(windows, overlap))
  {
    if windows != [] {
      WordsOfRest(windows[1..], overlap);
      assert WindowWords(windows)[1..] == WindowWords(windows[1..]);
    }
  }

  lemma WordsOfReassembled<P>(windows: seq<seq<Placed<P>>>, overlap: nat)
    ensures Reassembled(WindowWords(windows), overlap) == WordsOf(Reassembled(windows, overlap))
  {
    if windows != [] {
      WordsOfRest(windows[1..], overlap);
      assert WindowWords(windows)[1..] == WindowWords(windows[1..]);
    }
  }

  /**
   From the texts of the chunks alone: dropping the shared words of every chunk after the first
   gives back exactly the words of the document, in order.
   */
  lemma PageChunksReassemble(pages: seq<string>, target: nat, overlap: nat)
    requires target >= 1
    ensures
      var chunks := ChunkPagesSpec(pages, target, overlap);
      Reassembled(ChunkWords(chunks), target - Step(target, overlap)) == WordsOf(PageStream(pages))
  {
    hide PageStream, Words, Join, Windows, Reassembled;
    var stream, step := PageStream(pages), Step(target, overlap);
    var windows := Windows(stream, target, step, 0);
    WindowsArePieces(stream, target, step, 0);
    var chunks := ChunkPagesSpec(pages, target, overlap);
    forall k | 0 <= k < |chunks|
      ensures ChunkWords(chunks)[k] == WindowWords(windows)[k]
    {
      assert windows[k] in windows;
      ChunkTextIsItsWords(pages, windows[k], k);
    }
    assert ChunkWords(chunks) == WindowWords(windows);
    WordsOfReassembled(windows, target - step);
    WindowsReassemble(stream, target, step);
  }

  /** The words that are placed on page `p`. */
  function OnPage(stream: seq<Placed<nat>>, p: nat): seq<string> {
    if stream == [] then []
    else
      var x := stream[|stream| - 1];
      OnPage(stream[..|stream| - 1], p) + if x.place == p then [x.word] else []
  }

  lemma {:induction false} OnPageAppend(a: seq<Placed<nat>>, b: seq<Placed<nat>>, p: nat)
    ensures OnPage(a + b, p) == OnPage(a, p) + OnPage(b, p)
  {
    if b == [] {
      assert a + b == a;
    } else {
      assert (a + b)[..|a + b| - 1] == a + b[..|b| - 1];
      OnPageAppend(a, b[..|b| - 1], p);
    }
  }

  lemma {:induction false} OnPageOfPlaced(words: seq<string>, q: nat, p: nat)
    ensures OnPage(PlaceWords<nat>(words, q), p) == if p == q then words else []
  {
    if words != [] {
      var init := words[..|words| - 1];
      OnPageOfPlaced(init, q, p);
      assert PlaceWords<nat>(words, q)[..|words| - 1] == PlaceWords<nat>(init, q);
      assert words == init + [words[|words| - 1]];
    }
  }

  /** The words placed on a page are the words of its text, in order; pages are counted from 1. */
  lemma {:induction false} PageHoldsItsWords(pages: seq<string>, p: nat)
    ensures OnPage(PageStream(pages), p) == if 1 <= p <= |pages| then Words(pages[p - 1]) else []
  {
    hide Words, PlaceWords, PageStream;
    NoPages();
    if pages != [] {
      var n := |pages| - 1;
      PageHoldsItsWords(pages[..n], p);
      OnLastPage(PageStream(pages[..n]), Words(pages[n]), n + 1, p);
      PageStreamSnoc(pages, n);
      assert pages[..n + 1] == pages;
    }
  }

  lemma OnLastPage(before: seq<Placed<nat>>, words: seq<string>, q: nat, p: nat)
    ensures OnPage(before + PlaceWords<nat>(words, q), p) == OnPage(before, p) + if p == q then words else []
  {
    hide OnPage, PlaceWords;
    OnPageAppend(before, PlaceWords<nat>(words, q), p);
    OnPageOfPlaced(words, q, p);
  }

  /** How many words a chunk shares with the one before: the overlap asked for, or all but one of a full chunk. */
  function Shared(target: nat, overlap: nat): nat
    requires target >= 1
  {
    if overlap < target then overlap else target - 1
  }

  lemma {:induction false} InkOfPages(pages: seq<string>)
    ensures Concat(WordsOf(PageStream(pages))) == Ink(Concat(pages))
  {
    hide Words, Ink;
    if pages == [] {
      NoInk();
    } else {
      var n := |pages| - 1;
      InkOfPages(pages[..n]);
      var before, words := PageStream(pages[..n]), Words(pages[n]);
      assert WordsOf(PageStream(pages)) == WordsOf(before) + words;
      ConcatAppend(WordsOf(before), words);
      WordsKeepInk(pages[n]);
      assert pages == pages[..n] + [pages[n]];
      ConcatSnoc(pages[..n], pages[n]);
      InkAppend(Concat(pages[..n]), pages[n]);
    }
  }

  lemma NoInk()
    ensures Ink("") == "" && Concat([]) == ""
  {
  }

  /** No character of the pages is lost, added or moved: the chunks' words, without those shared, are the pages' ink in order. */
  lemma PageChunksKeepInk(pages: seq<string>, target: nat, overlap: nat)
    requires target >= 1
    ensures Concat(Reassembled(ChunkWords(ChunkPagesSpec(pages, target, overlap)), Shared(target, overlap))) == Ink(Concat(pages))
  {
    hide ChunkPagesSpec, ChunkWords, Reassembled, Concat, Ink;
    PageChunksReassemble(pages, target, overlap);
    InkOfPages(pages);
    assert Shared(target, overlap) == target - Step(target, overlap);
  }

  /** The chunk is made of the words from `from` on, `target` of them or as many as there are. */
  ghost predicate IsSlice(c: PageChunk, words: seq<string>, from: int, target: nat) {
    && 0 <= from < |words|
    && var to := if from + target <= |words| then from + target else |words|;
       c.text == Join(" ", words[from..to]) && c.tokenCount == to - from
  }

  /** Each chunk begins `target` words, less those shared, after the one before. */
  lemma PageChunkAt(pages: seq<string>, target: nat, overlap: nat, k: nat)
    requires target >= 1 && k < |ChunkPagesSpec(pages, target, overlap)|
    ensures IsSlice(ChunkPagesSpec(pages, target, overlap)[k], WordsOf(PageStream(pages)),
                    k * (target - Shared(target, overlap)), target)
  {
    hide PageStream, Words, Join, Windows;
    var stream, step := PageStream(pages), Step(target, overlap);
    WindowsArePieces(stream, target, step, 0);
    WindowAt(stream, target, step, k);
    assert step == target - Shared(target, overlap);
    SliceOfWindow(stream, k * step, target, k);
  }

  lemma SliceOfWindow(stream: seq<Placed<nat>>, from: nat, target: nat, ord: nat)
    requires from < |stream| && target >= 1
    ensures Window(stream, target, from) != []
    ensures IsSlice(MakePageChunk(ord, Window(stream, target, from)), WordsOf(stream), from, target)
  {
    hide Join;
    var to := if from + target <= |stream| then from + target else |stream|;
    assert WordsOf(Window(stream, target, from)) == WordsOf(stream)[from..to];
  }

  /** Chunks are numbered in order, and each one's page span holds all its words. */
  lemma PageSpanIsTight(pages: seq<string>, target: nat, overlap: int, k: nat)
    requires target >= 1 && k < |ChunkPagesSpec(pages, target, overlap)|
    ensures
      var stream, step := PageStream(pages), Step(target, overlap);
      var c, window := ChunkPagesSpec(pages, target, overlap)[k], Windows(stream, target, step, 0)[k];
      && c.ord == k && 1 <= c.pageStart <= c.pageEnd <= |pages| && c.tokenCount == |window| <= target
      && window != [] && c.pageStart == window[0].place && c.pageEnd == window[|window| - 1].place
      && forall x | x in window :: c.pageStart <= x.place <= c.pageEnd
  {
    hide PageStream, Join, Windows, Window, MakePageChunk, WordsOf;
    var stream, step := PageStream(pages), Step(target, overlap);
    WindowsArePieces(stream, target, step, 0);
    WindowAt(stream, target, step, k);
    StreamHoldsWords(pages);
    SpanOfWindow(stream, target, k * step, k, |pages|);
  }

  lemma SpanOfWindow(stream: seq<Placed<nat>>, target: nat, from: nat, ord: nat, pages: nat)
    requires target >= 1 && from < |stream| && forall x | x in stream :: 1 <= x.place <= pages
    requires forall i, j | 0 <= i <= j < |stream| :: stream[i].place <= stream[j].place
    ensures var w := Window(stream, target, from);
      && w != [] && |w| <= target
      && var c := MakePageChunk(ord, w);
         && c.ord == ord && c.tokenCount == |w|
         && 1 <= c.pageStart <= c.pageEnd <= pages
         && c.pageStart == w[0].place && c.pageEnd == w[|w| - 1].place
         && forall x | x in w :: c.pageStart <= x.place <= c.pageEnd
  {
    hide Join, WordsOf;
    var w := Window(stream, target, from);
    assert forall i | 0 <= i < |w| :: w[i] == stream[from + i];
    assert stream[from] in stream && stream[from + |w| - 1] in stream;
    forall x | x in w
      ensures w[0].place <= x.place <= w[|w| - 1].place
    {
      var i :| 0 <= i < |w| && w[i] == x;
      assert stream[from].place <= stream[from + i].place <= stream[from + |w| - 1].place;
    }
  }

  // ---------------------------------------------------------------- elements with headings and boxes

  datatype Box = Box(x0: real, y0: real, x1: real, y1: real)

  datatype Element = Element(text: string, page: int, headingPath: seq<string>, bbox: Option<Box>)

  datatype Key = Key(page: int, heading: seq<string>)

  /** The page and the first two headings. */
  function KeyOf(e: Element): Key {
    Key(e.page, if |e.headingPath| <= 2 then e.headingPath else e.headingPath[..2])
  }

  function Flatten<T>(groups: seq<seq<T>>): seq<T> {
    if groups == [] then [] else Flatten(groups[..|groups| - 1]) + groups[|groups| - 1]
  }

  ghost predicate OneKey(group: seq<Element>) {
    group != [] && forall i | 0 <= i < |group| :: KeyOf(group[i]) == KeyOf(group[0])
  }

  /** The reading order cut exactly where page or heading changes. */
  ghost predicate Grouping(groups: seq<seq<Element>>, elements: seq<Element>) {
    && Flatten(groups) == elements
    && (forall k | 0 <= k < |groups| :: OneKey(groups[k]))
    && (forall k | 0 <= k < |groups| - 1 && groups[k] != [] && groups[k + 1] != [] ::
          KeyOf(groups[k][0]) != KeyOf(groups[k + 1][0]))
  }

  lemma FlattenSnoc<T>(groups: seq<seq<T>>, g: seq<T>)
    ensures Flatten(groups + [g]) == Flatten(groups) + g
  {
    assert (groups + [g])[..|groups|] == groups;
  }

  /** The groups, element by element. */
  function GroupsOf(elements: seq<Element>): seq<seq<Element>> {
    if elements == [] then []
    else
      var gs, e := GroupsOf(elements[..|elements| - 1]), elements[|elements| - 1];
      if gs == [] then [[e]]
      else
        var g := gs[|gs| - 1];
        if g != [] && KeyOf(g[0]) == KeyOf(e) then gs[..|gs| - 1] + [g + [e]] else gs + [[e]]
  }

  /** They concatenate to the elements, each has one key, and neighbours differ. */
  lemma {:induction false} GroupsOfGroup(elements: seq<Element>)
    ensures Grouping(GroupsOf(elements), elements)
  {
    hide Grouping, OneKey, KeyOf;
    if elements == [] {
      NoGroups();
    } else {
      var init, e := elements[..|elements| - 1], elements[|elements| - 1];
      var gs := GroupsOf(init);
      GroupsOfGroup(init);
      assert elements == init + [e];
      if gs != [] && gs[|gs| - 1] != [] && KeyOf(gs[|gs| - 1][0]) == KeyOf(e) {
        ExtendLast(gs, init, e);
      } else {
        OneKeySnoc([], e);
        assert [] + [e] == [e];
        LastSnoc(gs, init, [e]);
        assert gs == [] ==> gs + [[e]] == [[e]];
      }
    }
  }

  lemma ExtendLast(gs: seq<seq<Element>>, elements: seq<Element>, e: Element)
    requires Grouping(gs, elements) && gs != [] && gs[|gs| - 1] != [] && KeyOf(gs[|gs| - 1][0]) == KeyOf(e)
    ensures Grouping(gs[..|gs| - 1] + [gs[|gs| - 1] + [e]], elements + [e])
  {
    hide KeyOf;
    var init, g := gs[..|gs| - 1], gs[|gs| - 1];
    OneKeySnoc(g, e);
    FlattenSnoc(init, g + [e]);
  }

  method GroupByPageAndHeading(elements: seq<Element>) returns (groups: seq<seq<Element>>)
    ensures groups == GroupsOf(elements)
  {
    hide Grouping, OneKey, KeyOf, GroupsOf;
    groups := [];
    var current: seq<Element> := [];
    NoGroups();
    for i := 0 to |elements|
      invariant |current| <= i && current == elements[i - |current|..i]
      invariant Grouping(groups, elements[..i - |current|])
      invariant current == [] ==> i == 0 && groups == []
      invariant current != [] ==> OneKey(current)
      invariant current != [] ==> Cut(groups, current[0])
    {
      var el := elements[i];
      if current != [] && KeyOf(el) != KeyOf(current[|current| - 1]) {
        assert elements[..i] == elements[..i - |current|] + current;
        GroupingSnoc(groups, elements[..i - |current|], current, el);
        groups := groups + [current];
        current := [];
      }
      OneKeySnoc(current, el);
      current := current + [el];
    }
    if current != [] {
      assert elements == elements[..|elements| - |current|] + current;
      LastSnoc(groups, elements[..|elements| - |current|], current);
      groups := groups + [current];
    } else {
      assert elements[..0] == elements;
    }
    GroupsOfGroup(elements);
    GroupingIsUnique(groups, GroupsOf(elements), elements);
  }

  /** The last group is of another key than the element that follows it. */
  ghost predicate Cut(groups: seq<seq<Element>>, e: Element) {
    groups != [] && groups[|groups| - 1] != [] ==> KeyOf(groups[|groups| - 1][0]) != KeyOf(e)
  }

  lemma NoGroups()
    ensures Grouping([], [])
  {
  }

  lemma OneKeySnoc(current: seq<Element>, el: Element)
    requires current != [] ==> OneKey(current) && KeyOf(el) == KeyOf(current[|current| - 1])
    ensures OneKey(current + [el])
  {
  }

  lemma LastSnoc(groups: seq<seq<Element>>, elements: seq<Element>, g: seq<Element>)
    requires Grouping(groups, elements) && OneKey(g) && Cut(groups, g[0])
    ensures Grouping(groups + [g], elements + g)
  {
    hide KeyOf, OneKey;
    FlattenSnoc(groups, g);
  }

  lemma GroupingSnoc(groups: seq<seq<Element>>, elements: seq<Element>, g: seq<Element>, el: Element)
    requires Grouping(groups, elements) && OneKey(g) && Cut(groups, g[0])
    requires KeyOf(el) != KeyOf(g[|g| - 1])
    ensures Grouping(groups + [g], elements + g) && Cut(groups + [g], el)
  {
    hide KeyOf, Grouping;
    LastSnoc(groups, elements, g);
  }

  lemma FlattenNone()
    ensures Flatten<Element>([]) == []
  {
  }

  /** The elements before the last group, and the last group, of any grouping. */
  lemma LastGroup(groups: seq<seq<Element>>, elements: seq<Element>)
    requires Grouping(groups, elements) && groups != []
    ensures
      var g, init := groups[|groups| - 1], groups[..|groups| - 1];
      var n := |elements| - |g|;
      && 0 <= n && g == elements[n..] && Grouping(init, elements[..n])
      && (n > 0 ==> KeyOf(elements[n - 1]) != KeyOf(elements[n]))
  {
    hide KeyOf;
    var g, init := groups[|groups| - 1], groups[..|groups| - 1];
    var n := |elements| - |g|;
    assert Flatten(init) + g == elements;
    assert g == elements[n..] && Flatten(init) == elements[..n];
    assert forall k | 0 <= k < |init| :: init[k] == groups[k];
    if n > 0 {
      assert init != [];
      var h := init[|init| - 1];
      assert h == groups[|groups| - 2] && OneKey(h) && OneKey(g);
      assert elements[n - 1] == elements[..n][n - 1] == h[|h| - 1];
      assert elements[n] == g[0];
    }
  }

  /** There is only one such cut, so the groups are maximal. */
  lemma {:induction false} GroupingIsUnique(gs: seq<seq<Element>>, hs: seq<seq<Element>>, elements: seq<Element>)
    requires Grouping(gs, elements) && Grouping(hs, elements)
    ensures gs == hs
    decreases |gs|
  {
    hide KeyOf, Flatten;
    if gs == [] || hs == [] {
      FlattenNone();
      if gs != [] {
        LastGroup(gs, elements);
      }
      if hs != [] {
        LastGroup(hs, elements);
      }
      return;
    }
    LastGroup(gs, elements);
    LastGroup(hs, elements);
    var g, h := gs[|gs| - 1], hs[|hs| - 1];
    SameLength(elements, |elements| - |g|, |elements| - |h|);
    GroupingIsUnique(gs[..|gs| - 1], hs[..|hs| - 1], elements[..|elements| - |g|]);
    assert gs == gs[..|gs| - 1] + [g] && hs == hs[..|hs| - 1] + [h];
  }

  lemma SameLength(elements: seq<Element>, m: int, n: int)
    requires 0 <= m < |elements| && 0 <= n < |elements|
    requires OneKey(elements[m..]) && OneKey(elements[n..])
    requires m > 0 ==> KeyOf(elements[m - 1]) != KeyOf(elements[m])
    requires n > 0 ==> KeyOf(elements[n - 1]) != KeyOf(elements[n])
    ensures m == n
  {
    hide KeyOf;
    assert forall i | m <= i < |elements| :: elements[i] == elements[m..][i - m];
    assert forall i | n <= i < |elements| :: elements[i] == elements[n..][i - n];
  }

  function Least(xs: seq<real>): (m: real)
    requires xs != []
    ensures m in xs && forall x | x in xs :: m <= x
  {
    if |xs| == 1 then xs[0]
    else
      var m := Least(xs[1..]);
      assert xs == [xs[0]] + xs[1..];
      if xs[0] <= m then xs[0] else m
  }

  function Greatest(xs: seq<real>): (m: real)
    requires xs != []
    ensures m in xs && forall x | x in xs :: x <= m
  {
    if |xs| == 1 then xs[0]
    else
      var m := Greatest(xs[1..]);
      assert xs == [xs[0]] + xs[1..];
      if xs[0] >= m then xs[0] else m
  }

  function Map<T, U>(f: T -> U, xs: seq<T>): seq<U> {
    seq(|xs|, i requires 0 <= i < |xs| => f(xs[i]))
  }

  /** The union of at least one box. */
  function Hull(boxes: seq<Box>): Box
    requires boxes != []
  {
    Box(Least(Map((b: Box) => b.x0, boxes)), Least(Map((b: Box) => b.y0, boxes)),
        Greatest(Map((b: Box) => b.x1, boxes)), Greatest(Map((b: Box) => b.y1, boxes)))
  }

  predicate Inside(b: Box, r: Box) {
    r.x0 <= b.x0 && r.y0 <= b.y0 && b.x1 <= r.x1 && b.y1 <= r.y1
  }

  lemma InMap<T, U>(f: T -> U, xs: seq<T>, x: T)
    requires x in xs
    ensures f(x) in Map(f, xs)
  {
    var i :| 0 <= i < |xs| && xs[i] == x;
    assert Map(f, xs)[i] == f(x);
  }

  lemma OfMap<T, U>(f: T -> U, xs: seq<T>, y: U)
    requires y in Map(f, xs)
    ensures exists x :: x in xs && f(x) == y
  {
    var i :| 0 <= i < |xs| && Map(f, xs)[i] == y;
    assert xs[i] in xs;
  }

  lemma HullHolds(boxes: seq<Box>, b: Box)
    requires b in boxes
    ensures Inside(b, Hull(boxes))
  {
    hide Map;
    InMap((b: Box) => b.x0, boxes, b);
    InMap((b: Box) => b.y0, boxes, b);
    InMap((b: Box) => b.x1, boxes, b);
    InMap((b: Box) => b.y1, boxes, b);
  }

  /** The union is inside every box that holds all the boxes. */
  lemma HullIsLeast(boxes: seq<Box>, r: Box)
    requires boxes != [] && forall b | b in boxes :: Inside(b, r)
    ensures Inside(Hull(boxes), r)
  {
    hide Map;
    var h := Hull(boxes);
    OfMap((b: Box) => b.x0, boxes, h.x0);
    OfMap((b: Box) => b.y0, boxes, h.y0);
    OfMap((b: Box) => b.x1, boxes, h.x1);
    OfMap((b: Box) => b.y1, boxes, h.y1);
  }

  function UnionBbox(boxes: seq<Box>): Option<Box> {
    if boxes == [] then None else Some(Hull(boxes))
  }

  function Breadcrumb(path: seq<string>): string {
    if path == [] then "" else "# " + Join(" > ", path)
  }

  datatype StructuredChunk = StructuredChunk(
    ord: nat, text: string, embedText: string, headingPath: seq<string>,
    pageStart: int, pageEnd: int, bbox: Option<Box>, tokenCount: nat)

  function ElementStream(group: seq<Element>): seq<Placed<Element>> {
    if group == [] then []
    else ElementStream(group[..|group| - 1]) + PlaceWords(Words(group[|group| - 1].text), group[|group| - 1])
  }

  /** The boxes of the elements in a window, word by word. */
  function BoxesOf(window: seq<Placed<Element>>): seq<Box> {
    if window == [] then []
    else
      var b := window[|window| - 1].place.bbox;
      BoxesOf(window[..|window| - 1]) + if b.Some? then [b.value] else []
  }

  function MakeChunk(ord: nat, window: seq<Placed<Element>>): StructuredChunk
    requires window != []
  {
    var first, text := window[0].place, Join(" ", WordsOf(window));
    var crumb := Breadcrumb(first.headingPath);
    StructuredChunk(ord, text, if crumb != "" then crumb + "\n" + text else text, first.headingPath,
                    first.page, first.page, UnionBbox(BoxesOf(window)), |window|)
  }

  function ElementChunks(windows: seq<seq<Placed<Element>>>): seq<StructuredChunk>
    requires [] !in windows
  {
    seq(|windows|, k requires 0 <= k < |windows| => MakeChunk(k, windows[k]))
  }

  /** The windows of every group, group after group. */
  function GroupWindows(groups: seq<seq<Element>>, target: nat, step: nat): (r: seq<seq<Placed<Element>>>)
    requires target >= 1 && step >= 1
    ensures [] !in r
  {
    if groups == [] then []
    else
      var stream := ElementStream(groups[|groups| - 1]);
      WindowsArePieces(stream, target, step, 0);
      GroupWindows(groups[..|groups| - 1], target, step) + Windows(stream, target, step, 0)
  }

  lemma ElementChunksSnoc(windows: seq<seq<Placed<Element>>>, window: seq<Placed<Element>>)
    requires [] !in windows && window != []
    ensures ElementChunks(windows + [window]) == ElementChunks(windows) + [MakeChunk(|windows|, window)]
  {
    hide MakeChunk;
  }

  /** Windows after those already made into chunks. */
  ghost function Further(windows0: seq<seq<Placed<Element>>>, stream: seq<Placed<Element>>, target: nat, step: nat)
    : (r: seq<seq<Placed<Element>>>)
    requires target >= 1 && step >= 1 && [] !in windows0
    ensures [] !in r
  {
    WindowsArePieces(stream, target, step, 0);
    windows0 + Windows(stream, target, step, 0)
  }

  method ChunkGroup(stream: seq<Placed<Element>>, target: nat, step: nat,
                    chunks0: seq<StructuredChunk>, ghost windows0: seq<seq<Placed<Element>>>)
    returns (chunks: seq<StructuredChunk>)
    requires target >= 1 && step >= 1
    requires [] !in windows0 && |chunks0| == |windows0| && chunks0 == ElementChunks(windows0)
    ensures chunks == ElementChunks(Further(windows0, stream, target, step))
  {
    hide Windows, Window, ElementChunks, MakeChunk;
    chunks := chunks0;
    ghost var windows := windows0;
    var i, n := 0, |stream|;
    while i < n
      invariant [] !in windows && |chunks| == |windows| && chunks == ElementChunks(windows)
      invariant windows + Windows(stream, target, step, i) == windows0 + Windows(stream, target, step, 0)
      decreases n - i
    {
      WindowsNext(stream, target, step, i);
      var window := Window(stream, target, i);
      ElementChunksSnoc(windows, window);
      windows := windows + [window];
      chunks := chunks + [MakeChunk(|chunks|, window)];
      if i + target >= n {
        assert windows == Further(windows0, stream, target, step);
        return;
      }
      i := i + step;
    }
    WindowsEnd(stream, target, step);
    assert windows == Further(windows0, stream, target, step);
  }

  method ChunkElements(elements: seq<Element>, target: nat, overlap: int) returns (chunks: seq<StructuredChunk>)
    requires target >= 1
    ensures chunks == ElementChunks(GroupWindows(GroupsOf(elements), target, Step(target, overlap)))
  {
    hide Windows, ElementChunks, Words, PlaceWords, Grouping, GroupsOf;
    var gs := GroupByPageAndHeading(elements);
    chunks := [];
    ghost var windows: seq<seq<Placed<Element>>> := [];
    NoElementChunks();
    for g := 0 to |gs|
      invariant [] !in windows && |chunks| == |windows| && chunks == ElementChunks(windows)
      invariant windows == GroupWindows(gs[..g], target, Step(target, overlap))
    {
      assert gs[..g + 1][..g] == gs[..g];
      var stream := GroupStream(gs[g]);
      chunks := ChunkGroup(stream, target, Step(target, overlap), chunks, windows);
      windows := Further(windows, stream, target, Step(target, overlap));
      ChunkPerWindow(windows);
    }
    assert gs[..|gs|] == gs;
  }

  lemma ChunkPerWindow(windows: seq<seq<Placed<Element>>>)
    requires [] !in windows
    ensures |ElementChunks(windows)| == |windows|
  {
  }

  lemma NoElementChunks()
    ensures ElementChunks([]) == []
  {
  }

  method GroupStream(group: seq<Element>) returns (stream: seq<Placed<Element>>)
    ensures stream == ElementStream(group)
  {
    hide Words, PlaceWords;
    stream := [];
    for i := 0 to |group|
      invariant stream == ElementStream(group[..i])
    {
      assert group[..i + 1][..i] == group[..i];
      stream := stream + PlaceWords(Words(group[i].text), group[i]);
    }
    assert group[..|group|] == group;
  }

  lemma {:induction false} StreamStaysInGroup(group: seq<Element>)
    ensures forall x | x in ElementStream(group) :: x.place in group && IsWord(x.word) && x.word in Words(x.place.text)
  {
    hide Words, IsWord;
    if group != [] {
      StreamStaysInGroup(group[..|group| - 1]);
      WordsAreWords(group[|group| - 1].text);
      assert group == group[..|group| - 1] + [group[|group| - 1]];
    }
  }

  lemma {:induction false} BoxesMember(window: seq<Placed<Element>>)
    ensures forall x | x in window && x.place.bbox.Some? :: x.place.bbox.value in BoxesOf(window)
    ensures forall b | b in BoxesOf(window) :: exists x :: x in window && x.place.bbox == Some(b)
  {
    if window != [] {
      var init, last := window[..|window| - 1], window[|window| - 1];
      BoxesMember(init);
      assert window == init + [last];
    }
  }

  /** `r` holds the box of every element in the window. */
  ghost predicate Holds(r: Box, window: seq<Placed<Element>>) {
    forall x | x in window && x.place.bbox.Some? :: Inside(x.place.bbox.value, r)
  }

  /** The union of the boxes in a window is the least box that holds them; there is none exactly when no element has one. */
  lemma UnionIsTight(window: seq<Placed<Element>>)
    ensures
      var u := UnionBbox(BoxesOf(window));
      && (u.Some? <==> exists x :: x in window && x.place.bbox.Some?)
      && (u.Some? ==> Holds(u.value, window) && forall r: Box | Holds(r, window) :: Inside(u.value, r))
  {
    hide BoxesOf, Hull, Inside;
    BoxesMember(window);
    var boxes := BoxesOf(window);
    if boxes != [] {
      assert boxes[0] in boxes;
      forall x | x in window && x.place.bbox.Some?
        ensures Inside(x.place.bbox.value, Hull(boxes))
      {
        HullHolds(boxes, x.place.bbox.value);
      }
      forall r: Box | Holds(r, window)
        ensures Inside(Hull(boxes), r)
      {
        HullIsLeast(boxes, r);
      }
    }
  }

  /** The first two headings are the same: both there or both missing, and equal. */
  predicate SameTop(a: seq<string>, b: seq<string>) {
    forall i | 0 <= i < 2 :: (i < |a| <==> i < |b|) && (i < |a| && i < |b| ==> a[i] == b[i])
  }

  /** What is embedded: the headings on a line of their own, when there are any, and the text. */
  function WithCrumb(path: seq<string>, text: string): string {
    if path == [] then text else "# " + Join(" > ", path) + "\n" + text
  }

  lemma SameKeySameTop(a: Element, b: Element)
    requires KeyOf(a) == KeyOf(b)
    ensures a.page == b.page && SameTop(a.headingPath, b.headingPath)
  {
    var k := KeyOf(a).heading;
    assert forall i | 0 <= i < |k| :: k[i] == a.headingPath[i] == b.headingPath[i];
  }

  /**
   A chunk made of `window` lies on one page and under one pair of top headings, its text is its
   words, what is embedded is never empty, and its box is the least that holds the boxes of its elements.
   */
  ghost predicate InPlace(c: StructuredChunk, window: seq<Placed<Element>>) {
    && window != [] && c.tokenCount == |window|
    && (forall x | x in window :: x.place.page == c.pageStart == c.pageEnd && SameTop(x.place.headingPath, c.headingPath))
    && c.headingPath == window[0].place.headingPath && c.embedText == WithCrumb(c.headingPath, c.text)
    && Words(c.text) == WordsOf(window) && c.embedText != ""
    && (c.bbox.Some? <==> exists x :: x in window && x.place.bbox.Some?)
    && (c.bbox.Some? ==> Holds(c.bbox.value, window) && forall r: Box | Holds(r, window) :: Inside(c.bbox.value, r))
  }

  lemma ChunkStaysInPlace(group: seq<Element>, target: nat, step: nat, ord: nat, window: seq<Placed<Element>>)
    requires target >= 1 && step >= 1 && OneKey(group)
    requires window in Windows(ElementStream(group), target, step, 0)
    ensures window != [] && InPlace(MakeChunk(ord, window), window)
  {
    hide Windows, Words, ElementStream, BoxesOf, UnionBbox, Inside, Holds;
    WindowsArePieces(ElementStream(group), target, step, 0);
    StreamStaysInGroup(group);
    WordsOfJoin(WordsOf(window));
    UnionIsTight(window);
    forall x | x in window
      ensures KeyOf(x.place) == KeyOf(group[0])
    {
      assert x.place in group;
    }
    assert window[0] in window;
    forall x | x in window {
      SameKeySameTop(x.place, window[0].place);
    }
    NonEmptyText(WordsOf(window));
  }

  lemma {:induction false} WindowOfGroup(groups: seq<seq<Element>>, target: nat, step: nat, window: seq<Placed<Element>>)
    requires target >= 1 && step >= 1 && window in GroupWindows(groups, target, step)
    ensures exists g :: 0 <= g < |groups| && window in Windows(ElementStream(groups[g]), target, step, 0)
  {
    hide Windows, ElementStream;
    var n := |groups| - 1;
    if window in GroupWindows(groups[..n], target, step) {
      WindowOfGroup(groups[..n], target, step, window);
      var g :| 0 <= g < n && window in Windows(ElementStream(groups[..n][g]), target, step, 0);
      assert groups[..n][g] == groups[g];
    } else {
      assert window in Windows(ElementStream(groups[n]), target, step, 0);
    }
  }

  /** Every chunk of a document given by elements is numbered by its place and made of a window that it keeps to. */
  lemma ChunksStayInPlace(elements: seq<Element>, target: nat, overlap: int, k: nat)
    requires target >= 1 && k < |GroupWindows(GroupsOf(elements), target, Step(target, overlap))|
    ensures
      var windows := GroupWindows(GroupsOf(elements), target, Step(target, overlap));
      k < |ElementChunks(windows)| && ElementChunks(windows)[k].ord == k && InPlace(ElementChunks(windows)[k], windows[k])
  {
    hide Windows, ElementStream, InPlace, GroupWindows, GroupsOf;
    var groups, step := GroupsOf(elements), Step(target, overlap);
    var windows := GroupWindows(groups, target, step);
    GroupsOfGroup(elements);
    assert windows[k] in windows;
    WindowOfGroup(groups, target, step, windows[k]);
    var g :| 0 <= g < |groups| && windows[k] in Windows(ElementStream(groups[g]), target, step, 0);
    ChunkStaysInPlace(groups[g], target, step, k, windows[k]);
  }

  lemma NonEmptyText(ws: seq<string>)
    requires ws != [] && ws[0] != ""
    ensures Join(" ", ws) != ""
  {
  }

  /** Group by group, the chunks' windows give back the group's words. */
  lemma GroupWordsReassemble(group: seq<Element>, target: nat, overlap: nat)
    requires target >= 1
    ensures
      var step := Step(target, overlap);
      Reassembled(WindowWords(Windows(ElementStream(group), target, step, 0)), target - step) == WordsOf(ElementStream(group))
  {
    hide Windows, ElementStream, Reassembled;
    var step := Step(target, overlap);
    WordsOfReassembled(Windows(ElementStream(group), target, step, 0), target - step);
    WindowsReassemble(ElementStream(group), target, step);
  }

  /** The texts of some chunks, cut into words. */
  function TextWords(chunks: seq<StructuredChunk>): seq<seq<string>> {
    seq(|chunks|, k requires 0 <= k < |chunks| => Words(chunks[k].text))
  }

  function TextsOf(group: seq<Element>): seq<string> {
    seq(|group|, i requires 0 <= i < |group| => group[i].text)
  }

  lemma {:induction false} InkOfGroup(group: seq<Element>)
    ensures Concat(WordsOf(ElementStream(group))) == Ink(Concat(TextsOf(group)))
  {
    hide Words, Ink;
    if group == [] {
      NoInk();
    } else {
      var n := |group| - 1;
      InkOfGroup(group[..n]);
      var before, words := ElementStream(group[..n]), Words(group[n].text);
      assert WordsOf(ElementStream(group)) == WordsOf(before) + words;
      ConcatAppend(WordsOf(before), words);
      WordsKeepInk(group[n].text);
      assert TextsOf(group) == TextsOf(group[..n]) + [group[n].text];
      ConcatSnoc(TextsOf(group[..n]), group[n].text);
      InkAppend(Concat(TextsOf(group[..n])), group[n].text);
    }
  }

  /** Where the windows of group `g` stand among those of all groups. */
  lemma {:induction false} WindowsOfGroup(groups: seq<seq<Element>>, target: nat, step: nat, g: nat)
    requires target >= 1 && step >= 1 && g < |groups|
    ensures
      var all, lo := GroupWindows(groups, target, step), |GroupWindows(groups[..g], target, step)|;
      var own := Windows(ElementStream(groups[g]), target, step, 0);
      lo + |own| <= |all| && all[lo..lo + |own|] == own
  {
    hide Windows, ElementStream;
    var n := |groups| - 1;
    if g < n {
      WindowsOfGroup(groups[..n], target, step, g);
      assert groups[..n][..g] == groups[..g] && groups[..n][g] == groups[g];
      var lo, own := |GroupWindows(groups[..g], target, step)|, Windows(ElementStream(groups[g]), target, step, 0);
      assert GroupWindows(groups, target, step)[lo..lo + |own|] == GroupWindows(groups[..n], target, step)[lo..lo + |own|];
    }
  }

  /** The chunks of each group stand together, and without the shared words give back the ink of the group's texts in order. */
  lemma GroupChunksKeepInk(elements: seq<Element>, target: nat, overlap: nat, g: nat)
    requires target >= 1 && g < |GroupsOf(elements)|
    ensures
      var groups, step := GroupsOf(elements), Step(target, overlap);
      var chunks, lo := ElementChunks(GroupWindows(groups, target, step)), |GroupWindows(groups[..g], target, step)|;
      var hi := lo + |Windows(ElementStream(groups[g]), target, step, 0)|;
      && hi <= |chunks|
      && Concat(Reassembled(TextWords(chunks[lo..hi]), Shared(target, overlap))) == Ink(Concat(TextsOf(groups[g])))
  {
    hide Windows, Words, ElementStream, GroupWindows, GroupsOf, Reassembled, Concat, Ink, TextsOf, InPlace, MakeChunk;
    var groups, step := GroupsOf(elements), Step(target, overlap);
    var all, lo := GroupWindows(groups, target, step), |GroupWindows(groups[..g], target, step)|;
    var own := Windows(ElementStream(groups[g]), target, step, 0);
    WindowsOfGroup(groups, target, step, g);
    var chunks := ElementChunks(all);
    var mine := chunks[lo..lo + |own|];
    forall k | 0 <= k < |own|
      ensures TextWords(mine)[k] == WindowWords(own)[k]
    {
      ChunksStayInPlace(elements, target, overlap, lo + k);
      assert all[lo + k] == all[lo..lo + |own|][k] == own[k];
      InPlaceWords(chunks[lo + k], own[k]);
    }
    assert TextWords(mine) == WindowWords(own);
    GroupWordsReassemble(groups[g], target, overlap);
    InkOfGroup(groups[g]);
    assert Shared(target, overlap) == target - step;
  }

  lemma InPlaceWords(c: StructuredChunk, window: seq<Placed<Element>>)
    requires InPlace(c, window)
    ensures Words(c.text) == WordsOf(window)
  {
  }

  /** Group by group, the texts of the elements in their order: no element is left out. */
  lemma GroupsKeepElements(elements: seq<Element>)
    ensures Flatten(GroupsOf(elements)) == elements
  {
    GroupsOfGroup(elements);
  }
}
