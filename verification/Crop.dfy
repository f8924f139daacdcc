/** Choosing the context: one printing per title, a relevance floor, and a token budget. */
module Crop {
  import opened Text
  import opened Hits
  import opened Ranking

  datatype Limits = Limits(
    minDocs: nat, maxDocs: nat, maxChunksPerDoc: nat, scoreFloor: real, tokenBudget: int, minChars: nat)

  // ---------------------------------------------------------------- which hits survive, declaratively

  predicate Newer(h: Hit, w: Hit) {
    h.docDate.Some? && w.docDate.Some? && h.docDate.value > w.docDate.value
  }

  predicate SameDoc(h: Hit, w: Hit) {
    h.docId.Some? && h.docId == w.docId
  }

  /** `f` is the first of the `n` best hits that has title `t`. */
  ghost predicate FirstOf(p: seq<Hit>, n: nat, t: string, f: nat) {
    f < n <= |p| && p[f].title == t && forall k | 0 <= k < f :: p[k].title != t
  }

  /** Given its title's first hit `f`: `f` itself when undated, otherwise the first hit with the latest date. */
  ghost predicate WinsOver(p: seq<Hit>, n: nat, t: string, f: nat, w: nat)
    requires w < n <= |p| && f < n
  {
    if p[f].docDate.None? then w == f
    else
      && p[w].docDate.Some?
      && forall k | 0 <= k < n && p[k].title == t && p[k].docDate.Some? ::
           p[k].docDate.value <= p[w].docDate.value && (k < w ==> p[k].docDate.value < p[w].docDate.value)
  }

  /** `w` is the winning printing of title `t` among the `n` best hits. */
  ghost predicate Wins(p: seq<Hit>, n: nat, t: string, w: nat) {
    && w < n <= |p| && p[w].title == t
    && exists f: nat :: FirstOf(p, n, t, f) && WinsOver(p, n, t, f, w)
  }

  function Winner(p: seq<Hit>, n: nat, t: string): (r: Option<nat>)
    requires n <= |p|
    ensures r.Some? ==> r.value < n && p[r.value].title == t
    ensures r.None? ==> forall k | 0 <= k < n :: p[k].title != t
  {
    if n == 0 then None
    else
      var r, h := Winner(p, n - 1, t), p[n - 1];
      if h.title == t && (r.None? || Newer(h, p[r.value])) then Some(n - 1) else r
  }

  lemma {:induction false} WinnerWins(p: seq<Hit>, n: nat, t: string)
    requires n <= |p| && Winner(p, n, t).Some?
    ensures Wins(p, n, t, Winner(p, n, t).value)
  {
    var r, h := Winner(p, n - 1, t), p[n - 1];
    if r.None? {
      assert FirstOf(p, n, t, n - 1);
    } else {
      WinnerWins(p, n - 1, t);
      var f: nat :| FirstOf(p, n - 1, t, f) && WinsOver(p, n - 1, t, f, r.value);
      assert FirstOf(p, n, t, f);
      assert WinsOver(p, n, t, f, Winner(p, n, t).value);
    }
  }

  lemma WinsIsUnique(p: seq<Hit>, n: nat, t: string, v: nat, w: nat)
    requires Wins(p, n, t, v) && Wins(p, n, t, w)
    ensures v == w
  {
    var f: nat :| FirstOf(p, n, t, f) && WinsOver(p, n, t, f, v);
    var g: nat :| FirstOf(p, n, t, g) && WinsOver(p, n, t, g, w);
    assert f == g;
    if p[f].docDate.Some? {
      assert p[v].docDate.value == p[w].docDate.value;
    }
  }

  /** How many of the hits from the winner `w` up to, not including, `j` belong to the winning document. */
  function Siblings(p: seq<Hit>, w: nat, j: nat): nat
    requires j <= |p| && w < |p|
    decreases j
  {
    if j <= w then 0
    else Siblings(p, w, j - 1) + if j - 1 == w || (p[j - 1].title == p[w].title && SameDoc(p[j - 1], p[w])) then 1 else 0
  }

  /**
   Hit `j` survives: it is its title's winner, or a later hit of the winner's document with fewer
   than `cap` of that document's hits from the winner on before it.
   */
  predicate Survives(p: seq<Hit>, n: nat, cap: nat, j: nat)
    requires j < n <= |p|
  {
    var w := Winner(p, n, p[j].title).value;
    j == w || (j > w && SameDoc(p[j], p[w]) && Siblings(p, w, j) < cap)
  }

  /** The survivors among the first `j` hits, in ranked order. */
  function Pick(p: seq<Hit>, n: nat, cap: nat, j: nat): seq<Hit>
    requires j <= n <= |p|
  {
    if j == 0 then [] else Pick(p, n, cap, j - 1) + if Survives(p, n, cap, j - 1) then [p[j - 1]] else []
  }

  function Survivors(p: seq<Hit>, n: nat, cap: nat): seq<Hit>
    requires n <= |p|
  {
    Pick(p, n, cap, n)
  }

  // ---------------------------------------------------------------- the deduplication loop

  function Without(hits: seq<Hit>, t: string): seq<Hit> {
    if hits == [] then []
    else Without(hits[..|hits| - 1], t) + if hits[|hits| - 1].title != t then [hits[|hits| - 1]] else []
  }

  lemma WithoutNone(t: string)
    ensures Without([], t) == []
  {
  }

  lemma WithoutSnoc(hits: seq<Hit>, h: Hit, t: string)
    ensures Without(hits + [h], t) == Without(hits, t) + if h.title != t then [h] else []
  {
    assert (hits + [h])[..|hits|] == hits;
  }

  function Min(a: nat, b: nat): nat {
    if a <= b then a else b
  }

  function Max(a: nat, b: nat): nat {
    if a <= b then b else a
  }

  /** What the two dictionaries say about title `t` after `n` hits. */
  ghost predicate BooksFor(p: seq<Hit>, n: nat, cap: nat, winner: map<string, Hit>, taken: map<string, nat>, t: string)
    requires n <= |p|
  {
    var w := Winner(p, n, t);
    if w.None? then t !in winner && t !in taken
    else
      && t in winner && winner[t] == p[w.value]
      && t in taken && taken[t] == Min(Siblings(p, w.value, n), Max(1, cap))
  }

  ghost predicate Books(p: seq<Hit>, n: nat, cap: nat, winner: map<string, Hit>, taken: map<string, nat>)
    requires n <= |p|
  {
    forall t :: BooksFor(p, n, cap, winner, taken, t)
  }

  lemma WinnerOther(p: seq<Hit>, n: nat, t: string)
    requires n < |p|
    ensures p[n].title != t ==> Winner(p, n + 1, t) == Winner(p, n, t)
  {
  }

  /** A title's winner and a hit that is not a newer printing: survivors so far stay. */
  lemma {:induction false} PickKept(p: seq<Hit>, n: nat, cap: nat, j: nat)
    requires j <= n < |p|
    requires Winner(p, n, p[n].title).None? || Winner(p, n + 1, p[n].title) == Winner(p, n, p[n].title)
    ensures Pick(p, n + 1, cap, j) == Pick(p, n, cap, j)
  {
    hide Siblings;
    if j > 0 {
      PickKept(p, n, cap, j - 1);
      WinnerOther(p, n, p[j - 1].title);
    }
  }

  /** A newer printing drops the older one's chunks. */
  lemma {:induction false} PickDropped(p: seq<Hit>, n: nat, cap: nat, j: nat)
    requires j <= n < |p|
    requires Winner(p, n + 1, p[n].title) == Some(n)
    ensures Pick(p, n + 1, cap, j) == Without(Pick(p, n, cap, j), p[n].title)
  {
    hide Siblings, Without, Winner;
    if j == 0 {
      WithoutNone(p[n].title);
    } else {
      PickDropped(p, n, cap, j - 1);
      WinnerOther(p, n, p[j - 1].title);
      var before := Pick(p, n, cap, j - 1);
      WithoutSnoc(before, p[j - 1], p[n].title);
      assert before + [] == before && Without(before, p[n].title) + [] == Without(before, p[n].title);
    }
  }

  lemma {:induction false} SiblingsUpTo(p: seq<Hit>, w: nat, j: nat)
    requires w < |p| && j <= |p|
    ensures j > w ==> Siblings(p, w, j) >= 1
    ensures j == w + 1 ==> Siblings(p, w, j) == 1
  {
    if j > w + 1 {
      SiblingsUpTo(p, w, j - 1);
    }
  }

  /** The three outcomes of one turn of the loop, told from the declarative survivors. */
  lemma OneMoreHit(p: seq<Hit>, n: nat, cap: nat)
    requires n < |p|
    ensures
      var h := p[n];
      var w, before, after := Winner(p, n, h.title), Survivors(p, n, cap), Survivors(p, n + 1, cap);
      if w.None? then after == before + [h]
      else if Newer(h, p[w.value]) then after == Without(before, h.title) + [h]
      else after == before + if SameDoc(h, p[w.value]) && Siblings(p, w.value, n) < cap then [h] else []
  {
    var h := p[n];
    var w := Winner(p, n, h.title);
    if w.Some? && Newer(h, p[w.value]) {
      PickDropped(p, n, cap, n);
    } else {
      PickKept(p, n, cap, n);
    }
  }

  /** The dictionaries after one more hit. */
  function WinnerNext(h: Hit, winner: map<string, Hit>): map<string, Hit> {
    if h.title !in winner || Newer(h, winner[h.title]) then winner[h.title := h] else winner
  }

  function TakenNext(h: Hit, cap: nat, winner: map<string, Hit>, taken: map<string, nat>): map<string, nat> {
    var t := h.title;
    if t !in winner || t !in taken || Newer(h, winner[t]) then taken[t := 1]
    else if SameDoc(h, winner[t]) && taken[t] < cap then taken[t := taken[t] + 1]
    else taken
  }

  lemma BooksForOther(p: seq<Hit>, n: nat, cap: nat, winner: map<string, Hit>, taken: map<string, nat>, s: string)
    requires n < |p| && BooksFor(p, n, cap, winner, taken, s) && s != p[n].title
    ensures BooksFor(p, n + 1, cap, WinnerNext(p[n], winner), TakenNext(p[n], cap, winner, taken), s)
  {
    hide Siblings;
    WinnerOther(p, n, s);
    if Winner(p, n, s).Some? {
      SiblingsOneMore(p, Winner(p, n, s).value, n);
    }
  }

  lemma BooksForThis(p: seq<Hit>, n: nat, cap: nat, winner: map<string, Hit>, taken: map<string, nat>)
    requires n < |p| && BooksFor(p, n, cap, winner, taken, p[n].title)
    ensures BooksFor(p, n + 1, cap, WinnerNext(p[n], winner), TakenNext(p[n], cap, winner, taken), p[n].title)
  {
    hide Siblings;
    var w := Winner(p, n, p[n].title);
    SiblingsUpTo(p, n, n + 1);
    if w.Some? {
      SiblingsUpTo(p, w.value, n);
      SiblingsOneMore(p, w.value, n);
    }
  }

  lemma BooksOneMore(p: seq<Hit>, n: nat, cap: nat, winner: map<string, Hit>, taken: map<string, nat>)
    requires n < |p| && Books(p, n, cap, winner, taken)
    ensures Books(p, n + 1, cap, WinnerNext(p[n], winner), TakenNext(p[n], cap, winner, taken))
  {
    hide BooksFor, WinnerNext, TakenNext;
    var m, winner', taken' := n + 1, WinnerNext(p[n], winner), TakenNext(p[n], cap, winner, taken);
    forall s
      ensures BooksFor(p, m, cap, winner', taken', s)
    {
      if s == p[n].title {
        BooksForThis(p, n, cap, winner, taken);
      } else {
        BooksForOther(p, n, cap, winner, taken, s);
      }
    }
  }

  lemma SiblingsOneMore(p: seq<Hit>, w: nat, n: nat)
    requires w < n < |p|
    ensures Siblings(p, w, n + 1) ==
      Siblings(p, w, n) + if p[n].title == p[w].title && SameDoc(p[n], p[w]) then 1 else 0
  {
  }

  /** The loop as it runs: it appends to its own accumulator and deletes from it. */
  method Deduplicate(ranked: seq<Hit>, maxChunksPerDoc: nat) returns (deduped: seq<Hit>)
    ensures deduped == Survivors(ranked, |ranked|, maxChunksPerDoc)
  {
    hide Survivors, Winner, Siblings, Books;
    deduped := [];
    var winner: map<string, Hit>, taken: map<string, nat> := map[], map[];
    NoBooks(ranked, maxChunksPerDoc);
    for n := 0 to |ranked|
      invariant deduped == Survivors(ranked, n, maxChunksPerDoc)
      invariant Books(ranked, n, maxChunksPerDoc, winner, taken)
    {
      var h := ranked[n];
      var t := h.title;
      OneMoreHit(ranked, n, maxChunksPerDoc);
      BooksOneMore(ranked, n, maxChunksPerDoc, winner, taken);
      BooksLookup(ranked, n, maxChunksPerDoc, winner, taken, h);
      if t !in winner {
        winner, taken := winner[t := h], taken[t := 1];
        deduped := deduped + [h];
        continue;
      }
      if Newer(h, winner[t]) {
        deduped := Without(deduped, t);
        winner, taken := winner[t := h], taken[t := 1];
        deduped := deduped + [h];
        continue;
      }
      if SameDoc(h, winner[t]) && taken[t] < maxChunksPerDoc {
        taken := taken[t := taken[t] + 1];
        deduped := deduped + [h];
      } else {
        assert deduped + [] == deduped;
      }
    }
  }

  lemma NoBooks(p: seq<Hit>, cap: nat)
    ensures Books(p, 0, cap, map[], map[]) && Survivors(p, 0, cap) == []
  {
  }

  /** What the loop reads from the dictionaries. */
  lemma BooksLookup(p: seq<Hit>, n: nat, cap: nat, winner: map<string, Hit>, taken: map<string, nat>, h: Hit)
    requires n <= |p| && Books(p, n, cap, winner, taken)
    ensures
      var t := h.title;
      var w := Winner(p, n, t);
      && (t in winner <==> w.Some?) && (t in taken <==> w.Some?)
      && (w.Some? ==> winner[t] == p[w.value] && (taken[t] < cap <==> Siblings(p, w.value, n) < cap))
  {
    assert BooksFor(p, n, cap, winner, taken, h.title);
    if Winner(p, n, h.title).Some? {
      SiblingsUpTo(p, Winner(p, n, h.title).value, n);
    }
  }

  // ---------------------------------------------------------------- what one document keeps

  /** With dates fixed per document, the winner is its document's first hit of the title. */
  ghost predicate DateByDoc(hits: seq<Hit>) {
    forall i, j | 0 <= i < |hits| && 0 <= j < |hits| && SameDoc(hits[i], hits[j]) :: hits[i].docDate == hits[j].docDate
  }

  lemma WinnerIsDocumentsFirst(p: seq<Hit>, n: nat, t: string, k: nat)
    requires n <= |p| && DateByDoc(p) && Winner(p, n, t).Some?
    requires k < n && p[k].title == t && SameDoc(p[k], p[Winner(p, n, t).value])
    ensures k >= Winner(p, n, t).value
  {
    WinnerWins(p, n, t);
    var w := Winner(p, n, t).value;
    var f: nat :| FirstOf(p, n, t, f) && WinsOver(p, n, t, f, w);
    assert p[k].docDate == p[w].docDate;
  }

  /** Hits of title `t` and document of hit `w` among the first `j`. */
  function DocHits(p: seq<Hit>, w: nat, j: nat): nat
    requires w < |p| && j <= |p|
  {
    if j == 0 then 0
    else DocHits(p, w, j - 1) + if p[j - 1].title == p[w].title && p[j - 1].docId == p[w].docId then 1 else 0
  }

  /**
   So, per title, exactly the first `cap` ranked hits of the winning document survive, and a
   winner that belongs to no document survives alone.
   */
  lemma SurvivorsAreFirstOfDocument(p: seq<Hit>, cap: nat, j: nat)
    requires j < |p| && DateByDoc(p) && cap >= 1
    ensures
      var n := |p|;
      var w := Winner(p, n, p[j].title).value;
      Survives(p, n, cap, j) <==>
        if p[w].docId.None? then j == w else p[j].docId == p[w].docId && DocHits(p, w, j) < cap
  {
    hide Siblings, DocHits;
    var n := |p|;
    var w := Winner(p, n, p[j].title).value;
    if p[w].docId.Some? {
      assert SameDoc(p[w], p[w]);
      forall k | 0 <= k < w && p[k].title == p[w].title
        ensures !SameDoc(p[k], p[w])
      {
        if SameDoc(p[k], p[w]) {
          WinnerIsDocumentsFirst(p, n, p[j].title, k);
        }
      }
      SiblingsAreDocHits(p, w, w);
      SiblingsAreDocHits(p, w, j);
      SiblingsNone(p, w);
    }
  }

  lemma SiblingsNone(p: seq<Hit>, w: nat)
    requires w < |p|
    ensures Siblings(p, w, w) == 0
  {
  }

  lemma {:induction false} SiblingsAreDocHits(p: seq<Hit>, w: nat, j: nat)
    requires w < |p| && j <= |p| && p[w].docId.Some?
    requires forall k | 0 <= k < w && p[k].title == p[w].title :: !SameDoc(p[k], p[w])
    ensures Siblings(p, w, j) == DocHits(p, w, j)
  {
    if j > 0 {
      SiblingsAreDocHits(p, w, j - 1);
    }
  }

  // ---------------------------------------------------------------- from survivors to context

  function Substantial(hits: seq<Hit>, minChars: nat): seq<Hit> {
    if hits == [] then []
    else Substantial(hits[..|hits| - 1], minChars) + if hits[|hits| - 1].chars >= minChars then [hits[|hits| - 1]] else []
  }

  function AboveFloor(hits: seq<Hit>, floor: real): seq<Hit> {
    if hits == [] then []
    else AboveFloor(hits[..|hits| - 1], floor) + if hits[|hits| - 1].score >= floor then [hits[|hits| - 1]] else []
  }

  function Pool(deduped: seq<Hit>, l: Limits): seq<Hit> {
    var substantial := Substantial(deduped, l.minChars);
    if |substantial| >= l.minDocs then substantial else deduped
  }

  function Take<T>(xs: seq<T>, n: nat): seq<T> {
    if n <= |xs| then xs[..n] else xs
  }

  function Clamped(pool: seq<Hit>, l: Limits): seq<Hit> {
    var kept := AboveFloor(pool, l.scoreFloor);
    if |kept| < l.minDocs then Take(pool, l.minDocs) else Take(kept, l.maxDocs)
  }

  function Total(hits: seq<Hit>): nat {
    if hits == [] then 0 else Total(hits[..|hits| - 1]) + hits[|hits| - 1].Tokens()
  }

  /** Where the token budget stops: from `minDocs` on, at the first hit that would exceed it. */
  function BudgetStop(kept: seq<Hit>, l: Limits, i: nat): (k: nat)
    requires i <= |kept|
    ensures i <= k <= |kept|
    decreases |kept| - i
  {
    if i == |kept| || (i >= l.minDocs && Total(kept[..i]) + kept[i].Tokens() > l.tokenBudget) then i
    else BudgetStop(kept, l, i + 1)
  }

  function Budgeted(kept: seq<Hit>, l: Limits): seq<Hit> {
    kept[..BudgetStop(kept, l, 0)]
  }

  /** From the deduplicated list to the context. */
  function Select(deduped: seq<Hit>, l: Limits): seq<Hit> {
    Budgeted(Clamped(Pool(deduped, l), l), l)
  }

  function Deduplicated(hits: seq<Hit>, l: Limits): seq<Hit> {
    var ranked := SortDesc(ScoreOf, hits);
    Survivors(ranked, |ranked|, l.maxChunksPerDoc)
  }

  function Cropped(hits: seq<Hit>, l: Limits): seq<Hit> {
    Select(Deduplicated(hits, l), l)
  }

  method CropContext(hits: seq<Hit>, l: Limits) returns (budgeted: seq<Hit>)
    ensures budgeted == Cropped(hits, l)
  {
    hide Survivors, SortDesc, Substantial, AboveFloor, Winner;
    if hits == [] {
      NothingCropped(l);
      return [];
    }
    var ranked := SortDesc(ScoreOf, hits);
    var deduped := Deduplicate(ranked, l.maxChunksPerDoc);
    var pool := Pool(deduped, l);
    if pool == [] {
      NothingSelected(l);
      return [];
    }
    var kept := Clamped(pool, l);
    budgeted := [];
    var total := 0;
    var i := 0;
    while i < |kept|
      invariant 0 <= i <= |kept| && budgeted == kept[..i] && total == Total(kept[..i])
      invariant BudgetStop(kept, l, 0) == BudgetStop(kept, l, i)
    {
      var tc := kept[i].Tokens();
      if i >= l.minDocs && total + tc > l.tokenBudget {
        break;
      }
      assert kept[..i + 1][..i] == kept[..i];
      budgeted := budgeted + [kept[i]];
      total := total + tc;
      i := i + 1;
    }
  }

  lemma NothingSelected(l: Limits)
    ensures Budgeted(Clamped([], l), l) == []
  {
  }

  lemma NothingCropped(l: Limits)
    ensures Cropped([], l) == []
  {
  }

  // ---------------------------------------------------------------- what the context is

  /** A descending list has everything above the floor in front. */
  lemma {:induction false} FloorIsPrefix(pool: seq<Hit>, floor: real)
    requires Descending(ScoreOf, pool)
    ensures AboveFloor(pool, floor) <= pool
    ensures forall i | 0 <= i < |pool| :: i < |AboveFloor(pool, floor)| <==> pool[i].score >= floor
  {
    if pool != [] {
      var init, last := pool[..|pool| - 1], pool[|pool| - 1];
      LastIsLowest(pool);
      FloorIsPrefix(init, floor);
      assert pool == init + [last];
      FloorSnoc(init, last, floor, AboveFloor(init, floor));
    }
  }

  /** A prefix that holds exactly what reaches the floor goes on doing so with one more hit that scores no higher. */
  lemma FloorSnoc(init: seq<Hit>, last: Hit, floor: real, above: seq<Hit>)
    requires above <= init && forall i | 0 <= i < |init| :: i < |above| <==> init[i].score >= floor
    requires forall i | 0 <= i < |init| :: init[i].score >= last.score
    ensures var more := above + if last.score >= floor then [last] else [];
      && more <= init + [last]
      && forall i | 0 <= i < |init + [last]| :: i < |more| <==> (init + [last])[i].score >= floor
  {
    if last.score >= floor {
      assert init != [] ==> init[|init| - 1].score >= last.score;
      assert above == init;
    } else {
      assert above + [] == above;
    }
  }

  lemma LastIsLowest(pool: seq<Hit>)
    requires Descending(ScoreOf, pool) && pool != []
    ensures var init := pool[..|pool| - 1];
      Descending(ScoreOf, init) && forall i | 0 <= i < |init| :: init[i].score >= pool[|pool| - 1].score
  {
    var n := |pool| - 1;
    forall i | 0 <= i < n
      ensures pool[..n][i].score >= pool[n].score
    {
      assert ScoreOf(pool[i]) >= ScoreOf(pool[n]);
    }
  }

  lemma {:induction false} PickDescends(p: seq<Hit>, n: nat, cap: nat, j: nat)
    requires j <= n <= |p| && Descending(ScoreOf, p)
    ensures Descending(ScoreOf, Pick(p, n, cap, j))
    ensures forall h | h in Pick(p, n, cap, j) :: exists k :: 0 <= k < j && h == p[k]
  {
    hide Survives;
    if j > 0 {
      var before := Pick(p, n, cap, j - 1);
      PickDescends(p, n, cap, j - 1);
      forall k | 0 <= k < |before|
        ensures ScoreOf(before[k]) >= ScoreOf(p[j - 1])
      {
        assert before[k] in before;
        var m :| 0 <= m < j - 1 && before[k] == p[m];
      }
    }
  }

  lemma {:induction false} SubstantialDescends(hits: seq<Hit>, minChars: nat)
    requires Descending(ScoreOf, hits)
    ensures Descending(ScoreOf, Substantial(hits, minChars))
    ensures forall h | h in Substantial(hits, minChars) :: h in hits && h.chars >= minChars
  {
    if hits != [] {
      var init, last := hits[..|hits| - 1], hits[|hits| - 1];
      SubstantialDescends(init, minChars);
      var s := Substantial(init, minChars);
      assert hits == init + [last];
      forall k | 0 <= k < |s|
        ensures ScoreOf(s[k]) >= ScoreOf(last)
      {
        assert s[k] in s;
        var m :| 0 <= m < |init| && init[m] == s[k];
        assert ScoreOf(hits[m]) >= ScoreOf(last);
      }
    }
  }

  lemma PoolDescends(hits: seq<Hit>, l: Limits)
    ensures Descending(ScoreOf, Deduplicated(hits, l)) && Descending(ScoreOf, Pool(Deduplicated(hits, l), l))
  {
    hide SortDesc, Pick, Substantial;
    SortDescSorts(ScoreOf, hits);
    var ranked := SortDesc(ScoreOf, hits);
    PickDescends(ranked, |ranked|, l.maxChunksPerDoc, |ranked|);
    SubstantialDescends(Deduplicated(hits, l), l.minChars);
  }

  lemma {:induction false} StopSpends(kept: seq<Hit>, l: Limits, i: nat)
    requires i <= |kept|
    requires i > l.minDocs ==> Total(kept[..i]) <= l.tokenBudget
    ensures var k := BudgetStop(kept, l, i);
      (k > l.minDocs ==> Total(kept[..k]) <= l.tokenBudget) && (k < |kept| ==> k >= l.minDocs)
    decreases |kept| - i
  {
    if BudgetStop(kept, l, i) != i {
      assert kept[..i + 1][..i] == kept[..i];
      StopSpends(kept, l, i + 1);
    }
  }

  lemma {:induction false} TotalGrows(hits: seq<Hit>, k: nat)
    requires k <= |hits|
    ensures Total(hits[..k]) <= Total(hits)
  {
    if k < |hits| {
      assert hits[..|hits| - 1][..k] == hits[..k];
      TotalGrows(hits[..|hits| - 1], k);
    } else {
      assert hits[..k] == hits;
    }
  }

  /** The sizes of the context drawn from a descending pool. */
  lemma SelectShape(d: seq<Hit>, l: Limits)
    requires l.minDocs <= l.maxDocs && Descending(ScoreOf, Pool(d, l))
    ensures var pool, out := Pool(d, l), Select(d, l);
      && out <= pool
      && Min(l.minDocs, |pool|) <= |out| <= l.maxDocs
      && (Total(out) <= l.tokenBudget || Total(out) <= Total(Take(pool, l.minDocs)))
  {
    hide Substantial, AboveFloor, Total, BudgetStop;
    var pool := Pool(d, l);
    var kept := Clamped(pool, l);
    FloorIsPrefix(pool, l.scoreFloor);
    assert kept <= pool;
    TotalOfNone();
    StopSpends(kept, l, 0);
    var out := Select(d, l);
    if |out| <= l.minDocs {
      var first := Take(pool, l.minDocs);
      assert out == first[..|out|];
      TotalGrows(first, |out|);
    }
  }

  lemma TotalOfNone()
    ensures forall hits: seq<Hit> :: Total(hits[..0]) == 0
  {
  }

  /**
   The context is a prefix of the pool, best first; it has at least `minDocs` hits when the pool
   does and at most `maxDocs`, and it exceeds the token budget only with its first `minDocs` hits.
   */
  lemma ContextShape(hits: seq<Hit>, l: Limits)
    requires l.minDocs <= l.maxDocs
    ensures var pool, out := Pool(Deduplicated(hits, l), l), Cropped(hits, l);
      && out <= pool && Descending(ScoreOf, out)
      && Min(l.minDocs, |pool|) <= |out| <= l.maxDocs
      && (Total(out) <= l.tokenBudget || Total(out) <= Total(Take(pool, l.minDocs)))
  {
    hide Pool, Deduplicated, Select, Total;
    PoolDescends(hits, l);
    SelectShape(Deduplicated(hits, l), l);
  }

  // ---------------------------------------------------------------- the context is as long as it may be

  /** The tokens of a list: each hit's stored count when it has one that is not zero, its words otherwise. */
  ghost function TokensOf(hits: seq<Hit>): nat {
    if hits == [] then 0
    else
      var h := hits[|hits| - 1];
      TokensOf(hits[..|hits| - 1]) + match h.tokenCount { case Some(n) => if n == 0 then h.words else n case None => h.words }
  }

  lemma {:induction false} TokensAreTotal(hits: seq<Hit>)
    ensures TokensOf(hits) == Total(hits)
  {
    if hits != [] {
      TokensAreTotal(hits[..|hits| - 1]);
    }
  }

  /** How many hits reach the floor. */
  ghost function Reaching(hits: seq<Hit>, floor: real): nat {
    if hits == [] then 0 else Reaching(hits[..|hits| - 1], floor) + if hits[|hits| - 1].score >= floor then 1 else 0
  }

  lemma {:induction false} ReachingIs(hits: seq<Hit>, floor: real)
    ensures |AboveFloor(hits, floor)| == Reaching(hits, floor)
  {
    if hits != [] {
      ReachingIs(hits[..|hits| - 1], floor);
    }
  }

  lemma {:induction false} StopIsForced(kept: seq<Hit>, l: Limits, i: nat)
    requires i <= |kept|
    ensures var k := BudgetStop(kept, l, i);
      k < |kept| ==> k >= l.minDocs && Total(kept[..k + 1]) > l.tokenBudget
    decreases |kept| - i
  {
    if BudgetStop(kept, l, i) != i {
      StopIsForced(kept, l, i + 1);
    } else if i < |kept| {
      assert kept[..i + 1][..i] == kept[..i];
    }
  }

  /** How long a context may be by its pool alone: the hits that reach the floor, raised to `minDocs` and cut at `maxDocs`. */
  ghost function Allowed(pool: seq<Hit>, l: Limits): nat {
    var n := Reaching(pool, l.scoreFloor);
    if n < l.minDocs then Min(l.minDocs, |pool|) else Min(n, l.maxDocs)
  }

  lemma ClampedIs(pool: seq<Hit>, l: Limits)
    requires l.minDocs <= l.maxDocs && Descending(ScoreOf, pool)
    ensures Allowed(pool, l) <= |pool| && Clamped(pool, l) == pool[..Allowed(pool, l)]
  {
    hide AboveFloor, Reaching, Descending;
    FloorIsPrefix(pool, l.scoreFloor);
    ReachingIs(pool, l.scoreFloor);
  }

  /**
   The context is the pool up to the first hit that would exceed the token budget, beyond `minDocs`
   hits; it falls short of what the pool allows only because the next hit does not fit.
   */
  lemma SelectIsLongest(d: seq<Hit>, l: Limits)
    requires l.minDocs <= l.maxDocs && Descending(ScoreOf, Pool(d, l))
    ensures var pool, out := Pool(d, l), Select(d, l);
      && |out| <= Allowed(pool, l) <= |pool| && out == pool[..|out|]
      && (|out| > l.minDocs ==> TokensOf(out) <= l.tokenBudget)
      && (|out| == Allowed(pool, l) || (|out| >= l.minDocs && TokensOf(pool[..|out| + 1]) > l.tokenBudget))
  {
    hide Pool, Clamped, Allowed, Total, TokensOf, BudgetStop, Descending;
    var pool := Pool(d, l);
    var kept := Clamped(pool, l);
    ClampedIs(pool, l);
    TotalOfNone();
    StopSpends(kept, l, 0);
    StopIsForced(kept, l, 0);
    var k := BudgetStop(kept, l, 0);
    assert kept[..k] == pool[..k];
    TokensAreTotal(pool[..k]);
    if k < |kept| {
      assert kept[..k + 1] == pool[..k + 1];
      TokensAreTotal(pool[..k + 1]);
    }
  }

  lemma ContextIsLongest(hits: seq<Hit>, l: Limits)
    requires l.minDocs <= l.maxDocs
    ensures var pool, out := Pool(Deduplicated(hits, l), l), Cropped(hits, l);
      && |out| <= Allowed(pool, l) <= |pool| && out == pool[..|out|]
      && (|out| > l.minDocs ==> TokensOf(out) <= l.tokenBudget)
      && (|out| == Allowed(pool, l) || (|out| >= l.minDocs && TokensOf(pool[..|out| + 1]) > l.tokenBudget))
  {
    hide Pool, Deduplicated, Select, Allowed, TokensOf;
    PoolDescends(hits, l);
    SelectIsLongest(Deduplicated(hits, l), l);
  }

  /** How many hits have a text of at least `minChars` characters. */
  ghost function LongOnes(hits: seq<Hit>, minChars: nat): nat {
    if hits == [] then 0 else LongOnes(hits[..|hits| - 1], minChars) + if hits[|hits| - 1].chars >= minChars then 1 else 0
  }

  lemma {:induction false} SubstantialIs(hits: seq<Hit>, minChars: nat, h: Hit)
    ensures |Substantial(hits, minChars)| == LongOnes(hits, minChars)
    ensures multiset(Substantial(hits, minChars))[h] == if h.chars >= minChars then multiset(hits)[h] else 0
  {
    if hits != [] {
      var init, last := hits[..|hits| - 1], hits[|hits| - 1];
      SubstantialIs(init, minChars, h);
      assert hits == init + [last];
    }
  }

  /** The pool holds the hits with a long enough text and no others when there are `minDocs` of them; otherwise it holds all. */
  lemma PoolIs(d: seq<Hit>, l: Limits, h: Hit)
    ensures if LongOnes(d, l.minChars) >= l.minDocs
      then multiset(Pool(d, l))[h] == (if h.chars >= l.minChars then multiset(d)[h] else 0)
      else Pool(d, l) == d
  {
    hide Substantial, LongOnes;
    SubstantialIs(d, l.minChars, h);
  }

  // ---------------------------------------------------------------- cropping twice

  function CountTitle(hits: seq<Hit>, t: string): nat {
    if hits == [] then 0
    else CountTitle(hits[..|hits| - 1], t) + if hits[|hits| - 1].title == t then 1 else 0
  }

  /** Hits of one title come from one document, all with its date, and there are at most `cap` of them (or one). */
  ghost predicate OnePrinting(hits: seq<Hit>, cap: nat) {
    && (forall i, j | 0 <= i < j < |hits| && hits[i].title == hits[j].title ::
          SameDoc(hits[j], hits[i]) && hits[i].docDate == hits[j].docDate)
    && (forall t :: CountTitle(hits, t) <= Max(1, cap))
  }

  /** A hit that is kept keeps everything it has to its printing. */
  ghost predicate Mates(p: seq<Hit>, w: nat, h: Hit)
    requires w < |p|
  {
    h == p[w] || (SameDoc(h, p[w]) && h.docDate == p[w].docDate)
  }

  /** How many of the first `j` hits survive under title `t`. */
  function KeptOf(p: seq<Hit>, n: nat, cap: nat, j: nat, t: string): nat
    requires j <= n <= |p|
  {
    var w := Winner(p, n, t);
    if w.None? then 0 else Min(Siblings(p, w.value, j), Max(1, cap))
  }

  /** Survivors of one title belong to the winner's document. */
  lemma {:induction false} PickMates(p: seq<Hit>, n: nat, cap: nat, j: nat)
    requires j <= n <= |p| && DateByDoc(p)
    ensures forall h | h in Pick(p, n, cap, j) :: Winner(p, n, h.title).Some? && Mates(p, Winner(p, n, h.title).value, h)
  {
    hide Winner, Siblings;
    if j > 0 {
      PickMates(p, n, cap, j - 1);
    }
  }

  lemma {:induction false} PickCount(p: seq<Hit>, n: nat, cap: nat, j: nat, t: string)
    requires j <= n <= |p|
    ensures CountTitle(Pick(p, n, cap, j), t) == KeptOf(p, n, cap, j, t)
  {
    hide Winner, Siblings, CountTitle, Survives;
    var w := Winner(p, n, t);
    if j == 0 {
      CountNone(t);
      if w.Some? {
        SiblingsBefore(p, w.value, 0);
      }
    } else {
      var before, h := Pick(p, n, cap, j - 1), p[j - 1];
      PickCount(p, n, cap, j - 1, t);
      CountSnoc(before, h, t);
      assert before + [] == before;
      if w.Some? {
        PickCounts(p, n, cap, j, t);
      }
    }
  }

  lemma CountNone(t: string)
    ensures CountTitle([], t) == 0
  {
  }

  lemma SiblingsBefore(p: seq<Hit>, w: nat, j: nat)
    requires w < |p| && j <= |p| && j <= w
    ensures Siblings(p, w, j) == 0
  {
  }

  lemma CountSnoc(hits: seq<Hit>, h: Hit, t: string)
    ensures CountTitle(hits + [h], t) == CountTitle(hits, t) + if h.title == t then 1 else 0
  {
    assert (hits + [h])[..|hits|] == hits;
  }

  /** Counting one title up to hit `j` follows the siblings of its winner, up to the cap. */
  lemma PickCounts(p: seq<Hit>, n: nat, cap: nat, j: nat, t: string)
    requires 0 < j <= n <= |p| && Winner(p, n, t).Some?
    ensures
      var w := Winner(p, n, t).value;
      var grows := p[j - 1].title == t && Survives(p, n, cap, j - 1);
      Min(Siblings(p, w, j), Max(1, cap)) == Min(Siblings(p, w, j - 1), Max(1, cap)) + if grows then 1 else 0
  {
    hide Winner;
    var w := Winner(p, n, t).value;
    SiblingsUpTo(p, w, j);
    SiblingsUpTo(p, w, j - 1);
    if j - 1 <= w {
      SiblingsBefore(p, w, j - 1);
    }
  }

  lemma SurvivorsHaveOnePrinting(p: seq<Hit>, cap: nat)
    requires DateByDoc(p)
    ensures OnePrinting(Survivors(p, |p|, cap), cap)
  {
    hide Winner, Siblings;
    var n := |p|;
    var s := Survivors(p, n, cap);
    PickMates(p, n, cap, n);
    forall t
      ensures CountTitle(s, t) <= Max(1, cap)
    {
      PickCount(p, n, cap, n, t);
    }
    forall i, j | 0 <= i < j < |s| && s[i].title == s[j].title
      ensures SameDoc(s[j], s[i]) && s[i].docDate == s[j].docDate
    {
      assert s[i] in s && s[j] in s;
      TwoOfTitle(p, n, cap, n, i, j);
    }
  }

  /** The second of two survivors of a title is not the winner itself, so its document is known. */
  lemma {:induction false} TwoOfTitle(p: seq<Hit>, n: nat, cap: nat, m: nat, i: nat, j: nat)
    requires m <= n <= |p|
    requires i < j < |Pick(p, n, cap, m)| && Pick(p, n, cap, m)[i].title == Pick(p, n, cap, m)[j].title
    ensures Pick(p, n, cap, m)[j].docId.Some?
    ensures Pick(p, n, cap, m)[i].docId == Pick(p, n, cap, m)[j].docId
  {
    hide Winner, Siblings;
    var before := Pick(p, n, cap, m - 1);
    if j < |before| {
      TwoOfTitle(p, n, cap, m - 1, i, j);
    } else {
      var t := p[m - 1].title;
      var w := Winner(p, n, t).value;
      FromWinnerOn(p, n, cap, m - 1, i);
    }
  }

  /** No survivor stands before its title's winner; the winner itself is the only one without a mate's document. */
  lemma {:induction false} FromWinnerOn(p: seq<Hit>, n: nat, cap: nat, m: nat, i: nat)
    requires m <= n <= |p| && i < |Pick(p, n, cap, m)|
    ensures
      var h := Pick(p, n, cap, m)[i];
      var w := Winner(p, n, h.title);
      w.Some? && w.value < m && (h == p[w.value] || SameDoc(h, p[w.value]))
  {
    hide Winner, Siblings;
    if i < |Pick(p, n, cap, m - 1)| {
      FromWinnerOn(p, n, cap, m - 1, i);
    }
  }

  /** A list with one printing per title is what deduplication leaves. */
  lemma {:induction false} OnePrintingWinner(s: seq<Hit>, cap: nat, n: nat, t: string)
    requires n <= |s| && OnePrinting(s, cap)
    ensures Winner(s, n, t).Some? ==> forall k | 0 <= k < Winner(s, n, t).value :: s[k].title != t
  {
    hide CountTitle;
    if n > 0 {
      OnePrintingWinner(s, cap, n - 1, t);
    }
  }

  lemma {:induction false} CountIsSiblings(s: seq<Hit>, cap: nat, w: nat, j: nat)
    requires w < |s| && j <= |s| && OnePrinting(s, cap)
    requires forall k | 0 <= k < w :: s[k].title != s[w].title
    ensures CountTitle(s[..j], s[w].title) == Siblings(s, w, j)
  {
    if j > 0 {
      CountIsSiblings(s, cap, w, j - 1);
      assert s[..j][..j - 1] == s[..j - 1];
    }
  }

  lemma {:induction false} CountGrows(s: seq<Hit>, t: string, j: nat)
    requires j <= |s|
    ensures CountTitle(s[..j], t) <= CountTitle(s, t)
  {
    if j < |s| {
      assert s[..|s| - 1][..j] == s[..j];
      CountGrows(s[..|s| - 1], t, j);
    } else {
      assert s[..j] == s;
    }
  }

  lemma OnePrintingSurvives(s: seq<Hit>, cap: nat, j: nat)
    requires j < |s| && OnePrinting(s, cap)
    ensures Survives(s, |s|, cap, j)
  {
    hide Winner, Siblings, CountTitle;
    var t := s[j].title;
    var w := Winner(s, |s|, t).value;
    OnePrintingWinner(s, cap, |s|, t);
    if j != w {
      assert w < j;
      CountIsSiblings(s, cap, w, j);
      SiblingsUpTo(s, w, j);
      CountSnoc(s[..j], s[j], t);
      assert s[..j + 1] == s[..j] + [s[j]];
      CountGrows(s, t, j + 1);
      assert CountTitle(s, t) <= Max(1, cap);
    }
  }

  lemma {:induction false} OnePrintingPick(s: seq<Hit>, cap: nat, j: nat)
    requires j <= |s| && OnePrinting(s, cap)
    ensures Pick(s, |s|, cap, j) == s[..j]
  {
    hide Survives, OnePrinting;
    if j > 0 {
      OnePrintingPick(s, cap, j - 1);
      OnePrintingSurvives(s, cap, j - 1);
    }
  }

  lemma OnePrintingPrefix(s: seq<Hit>, cap: nat, k: nat)
    requires k <= |s| && OnePrinting(s, cap)
    ensures OnePrinting(s[..k], cap)
  {
    forall t
      ensures CountTitle(s[..k], t) <= Max(1, cap)
    {
      CountGrows(s, t, k);
    }
  }

  lemma {:induction false} OnePrintingSubstantial(s: seq<Hit>, cap: nat, minChars: nat)
    requires OnePrinting(s, cap)
    ensures OnePrinting(Substantial(s, minChars), cap)
  {
    hide CountTitle;
    SubstantialCounts(s, minChars);
    var r := Substantial(s, minChars);
    forall i, j | 0 <= i < j < |r| && r[i].title == r[j].title
      ensures SameDoc(r[j], r[i]) && r[i].docDate == r[j].docDate
    {
      var a, b := SubstantialPlaces(s, minChars, i, j);
    }
    forall t
      ensures CountTitle(r, t) <= Max(1, cap)
    {
      assert CountTitle(r, t) <= CountTitle(s, t);
    }
  }

  lemma {:induction false} SubstantialCounts(s: seq<Hit>, minChars: nat)
    ensures forall t :: CountTitle(Substantial(s, minChars), t) <= CountTitle(s, t)
  {
    if s != [] {
      var init, last := s[..|s| - 1], s[|s| - 1];
      SubstantialCounts(init, minChars);
      forall t
        ensures CountTitle(Substantial(s, minChars), t) <= CountTitle(s, t)
      {
        CountSnoc(Substantial(init, minChars), last, t);
        assert Substantial(init, minChars) + [] == Substantial(init, minChars);
      }
    }
  }

  lemma {:induction false} SubstantialPlaces(s: seq<Hit>, minChars: nat, i: nat, j: nat) returns (a: nat, b: nat)
    requires i < j < |Substantial(s, minChars)|
    ensures a < b < |s| && s[a] == Substantial(s, minChars)[i] && s[b] == Substantial(s, minChars)[j]
  {
    var init := s[..|s| - 1];
    var m := |Substantial(init, minChars)|;
    if j < m {
      a, b := SubstantialPlaces(init, minChars, i, j);
    } else {
      a := SubstantialPlace(init, minChars, i);
      b := |s| - 1;
    }
  }

  lemma {:induction false} SubstantialPlace(s: seq<Hit>, minChars: nat, i: nat) returns (a: nat)
    requires i < |Substantial(s, minChars)|
    ensures a < |s| && s[a] == Substantial(s, minChars)[i]
  {
    if i < |Substantial(s[..|s| - 1], minChars)| {
      a := SubstantialPlace(s[..|s| - 1], minChars, i);
    } else {
      a := |s| - 1;
    }
  }

  lemma {:induction false} SubstantialPrefix(s: seq<Hit>, minChars: nat, k: nat)
    requires k <= |s|
    ensures |Substantial(s[..k], minChars)| <= |Substantial(s, minChars)|
  {
    if k < |s| {
      assert s[..|s| - 1][..k] == s[..k];
      SubstantialPrefix(s[..|s| - 1], minChars, k);
    } else {
      assert s[..k] == s;
    }
  }

  lemma {:induction false} AllSubstantial(s: seq<Hit>, minChars: nat)
    requires forall h | h in s :: h.chars >= minChars
    ensures Substantial(s, minChars) == s
  {
    if s != [] {
      var init, last := s[..|s| - 1], s[|s| - 1];
      assert s == init + [last];
      AllSubstantial(init, minChars);
    }
  }

  lemma {:induction false} StopAgain(kept: seq<Hit>, l: Limits, i: nat)
    requires i <= |kept|
    ensures var k := BudgetStop(kept, l, i); BudgetStop(kept[..k], l, i) == k
    decreases |kept| - i
  {
    var k := BudgetStop(kept, l, i);
    if k != i {
      StopAgain(kept, l, i + 1);
      assert kept[..k][..i] == kept[..i];
    }
  }

  /** A prefix of a pool is its own pool. */
  lemma PoolAgain(d: seq<Hit>, l: Limits, b: nat)
    requires b <= |Pool(d, l)| && Descending(ScoreOf, d)
    ensures Pool(Pool(d, l)[..b], l) == Pool(d, l)[..b]
  {
    hide Substantial;
    var pool := Pool(d, l);
    SubstantialDescends(d, l.minChars);
    SubstantialPrefix(pool, l.minChars, b);
    if |Substantial(d, l.minChars)| >= l.minDocs {
      assert forall h | h in pool[..b] :: h in pool;
      AllSubstantial(pool[..b], l.minChars);
    }
  }

  /** Selecting from a context gives the context back. */
  lemma SelectAgain(d: seq<Hit>, l: Limits)
    requires l.minDocs <= l.maxDocs && Descending(ScoreOf, d)
    ensures Select(Select(d, l), l) == Select(d, l)
  {
    hide Substantial, AboveFloor, Total, BudgetStop;
    var pool, kept, out := Pool(d, l), Clamped(Pool(d, l), l), Select(d, l);
    SubstantialDescends(d, l.minChars);
    FloorIsPrefix(pool, l.scoreFloor);
    TotalOfNone();
    StopSpends(kept, l, 0);
    StopAgain(kept, l, 0);
    var b := |out|;
    assert out == pool[..b];
    PoolAgain(d, l, b);
    FloorIsPrefix(out, l.scoreFloor);
    var f, g := |AboveFloor(pool, l.scoreFloor)|, |AboveFloor(out, l.scoreFloor)|;
    assert forall i | 0 <= i < b :: out[i] == pool[i];
    assert g < b ==> pool[g] == out[g];
    assert f < b ==> pool[f] == out[f];
    assert g == Min(f, b);
    assert Clamped(out, l) == out;
  }

  /** Cropping what was cropped changes nothing, given that a document has one date. */
  lemma CropTwice(hits: seq<Hit>, l: Limits)
    requires l.minDocs <= l.maxDocs && DateByDoc(hits)
    ensures Cropped(Cropped(hits, l), l) == Cropped(hits, l)
  {
    hide Select, SortDesc, Substantial, Pick, OnePrinting;
    var ranked := SortDesc(ScoreOf, hits);
    SortDescSorts(ScoreOf, hits);
    assert DateByDoc(ranked) by {
      forall i | 0 <= i < |ranked|
        ensures ranked[i] in hits
      {
        assert ranked[i] in multiset(ranked);
      }
    }
    var cap := l.maxChunksPerDoc;
    var d, out := Deduplicated(hits, l), Cropped(hits, l);
    SurvivorsHaveOnePrinting(ranked, cap);
    PoolDescends(hits, l);
    OnePrintingSubstantial(d, cap, l.minChars);
    ContextShape(hits, l);
    assert out == Pool(d, l)[..|out|];
    OnePrintingPrefix(Pool(d, l), cap, |out|);
    SortDescIdentity(ScoreOf, out);
    OnePrintingPick(out, cap, |out|);
    assert out[..|out|] == out;
    SelectAgain(d, l);
  }
}
