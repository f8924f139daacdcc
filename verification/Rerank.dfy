/** Reordering the fused hits by the hosted reranker's scores, and the guard against flat scores. */
module Rerank {
  import opened Text
  import opened Hits
  import opened Ranking

  /** One row of the reranker's answer; either field may be missing. */
  datatype Row = Row(index: Option<int>, relevance: Option<real>)

  function Identity(x: real): real {
    x
  }

  function Best5(scores: seq<real>): seq<real> {
    var s := SortDesc(Identity, scores);
    if |s| <= 5 then s else s[..5]
  }

  /** The five best scores lie within `spread` of each other. */
  predicate Flat(scores: seq<real>, spread: real) {
    var top := Best5(scores);
    |top| >= 2 && top[0] - top[|top| - 1] < spread
  }

  /** The fused hits in their own order, carrying the scores in descending order. */
  function Guarded(hits: seq<Hit>, scores: seq<real>): (r: seq<Hit>)
    requires |hits| == |scores|
  {
    SortDescSorts(Identity, scores);
    var ordered := SortDesc(Identity, scores);
    seq(|hits|, i requires 0 <= i < |hits| => hits[i].(score := ordered[i]))
  }

  function FlatGuard(hits: seq<Hit>, scores: seq<real>, spread: real): Option<seq<Hit>>
    requires |hits| == |scores|
  {
    if Flat(scores, spread) then Some(Guarded(hits, scores)) else None
  }

  /** Flatness measured without sorting: among the five best, any two scores differ by less than `spread`. */
  lemma FlatMeans(scores: seq<real>, spread: real)
    ensures Flat(scores, spread) <==>
      |scores| >= 2 && forall i, j | 0 <= i < j < |Best5(scores)| :: Best5(scores)[i] - Best5(scores)[j] < spread
    ensures |SortDesc(Identity, scores)| == |scores|
    ensures forall i, j | 0 <= i < |Best5(scores)| && |Best5(scores)| <= j < |scores| ::
      SortDesc(Identity, scores)[j] <= Best5(scores)[i]
  {
    hide SortDesc;
    SortDescSorts(Identity, scores);
    var s, top := SortDesc(Identity, scores), Best5(scores);
    assert forall i, j | 0 <= i < j < |s| :: Identity(s[i]) >= Identity(s[j]);
  }

  function Scores(hits: seq<Hit>): seq<real> {
    seq(|hits|, i requires 0 <= i < |hits| => hits[i].score)
  }

  /** When the guard fires, the later stable sort by score is the identity, so the fused order stands. */
  lemma GuardedOrderSurvives(hits: seq<Hit>, scores: seq<real>)
    requires |hits| == |scores|
    ensures SortDesc(ScoreOf, Guarded(hits, scores)) == Guarded(hits, scores)
    ensures forall i | 0 <= i < |hits| :: Guarded(hits, scores)[i] == hits[i].(score := Guarded(hits, scores)[i].score)
    ensures multiset(Scores(Guarded(hits, scores))) == multiset(scores)
  {
    SortDescSorts(Identity, scores);
    var ordered, out := SortDesc(Identity, scores), Guarded(hits, scores);
    assert Scores(out) == ordered;
    forall i, j | 0 <= i < j < |out|
      ensures ScoreOf(out[i]) >= ScoreOf(out[j])
    {
      assert Identity(ordered[i]) >= Identity(ordered[j]);
    }
    SortDescIdentity(ScoreOf, out);
  }

  predicate InRange(row: Row, n: nat) {
    row.index.Some? && 0 <= row.index.value < n
  }

  function Valid(rows: seq<Row>, n: nat): (r: seq<Row>)
    ensures forall i | 0 <= i < |r| :: InRange(r[i], n)
  {
    if rows == [] then []
    else (if InRange(rows[0], n) then [rows[0]] else []) + Valid(rows[1..], n)
  }

  /** The score the last row gives each hit, or 0. */
  function InputScores(valid: seq<Row>, n: nat): (r: seq<real>)
    requires forall i | 0 <= i < |valid| :: InRange(valid[i], n) && valid[i].relevance.Some?
    ensures |r| == n
  {
    if valid == [] then seq(n, _ => 0.0)
    else
      var row := valid[|valid| - 1];
      assert InRange(row, n);
      InputScores(valid[..|valid| - 1], n)[row.index.value := row.relevance.value]
  }

  predicate PointsTo(row: Row, i: nat) {
    row.index == Some(i)
  }

  /** A hit's score is that of the last row that points to it. */
  lemma {:induction false} LastRowWins(valid: seq<Row>, n: nat, i: nat, k: nat)
    requires forall m | 0 <= m < |valid| :: InRange(valid[m], n) && valid[m].relevance.Some?
    requires i < n && k < |valid| && PointsTo(valid[k], i) && forall m | k < m < |valid| :: !PointsTo(valid[m], i)
    ensures valid[k].relevance == Some(InputScores(valid, n)[i])
  {
    var init := valid[..|valid| - 1];
    if k < |init| {
      assert !PointsTo(valid[|init|], i);
      LastRowWins(init, n, i, k);
    }
  }

  /** A hit no row points to scores 0. */
  lemma {:induction false} NoRowNoScore(valid: seq<Row>, n: nat, i: nat)
    requires forall m | 0 <= m < |valid| :: InRange(valid[m], n) && valid[m].relevance.Some?
    requires i < n && forall m | 0 <= m < |valid| :: !PointsTo(valid[m], i)
    ensures InputScores(valid, n)[i] == 0.0
  {
    if valid != [] {
      assert !PointsTo(valid[|valid| - 1], i);
      NoRowNoScore(valid[..|valid| - 1], n, i);
    }
  }

  function Scored(hits: seq<Hit>, valid: seq<Row>): seq<Hit>
    requires forall i | 0 <= i < |valid| :: InRange(valid[i], |hits|) && valid[i].relevance.Some?
  {
    seq(|valid|, i requires 0 <= i < |valid| =>
      assert InRange(valid[i], |hits|);
      hits[valid[i].index.value].(score := valid[i].relevance.value))
  }

  predicate AllScored(valid: seq<Row>) {
    forall i | 0 <= i < |valid| :: valid[i].relevance.Some?
  }

  /** `None` stands for a failed call. Any failure gives the input back. */
  function RerankSpec(hits: seq<Hit>, answer: Option<seq<Row>>, spread: real): seq<Hit> {
    if answer.None? then hits
    else
      var valid := Valid(answer.value, |hits|);
      if valid == [] || !AllScored(valid) then hits
      else
        match FlatGuard(hits, InputScores(valid, |hits|), spread)
        case Some(guarded) => guarded
        case None => SortDesc(ScoreOf, Scored(hits, valid))
  }

  /** The hit is one of `hits`, possibly with another score. */
  ghost predicate DrawnFrom(h: Hit, hits: seq<Hit>) {
    exists i :: 0 <= i < |hits| && h == hits[i].(score := h.score)
  }

  lemma ScoredAreDrawn(hits: seq<Hit>, valid: seq<Row>, h: Hit)
    requires forall i | 0 <= i < |valid| :: InRange(valid[i], |hits|) && valid[i].relevance.Some?
    requires h in Scored(hits, valid)
    ensures DrawnFrom(h, hits)
  {
    var k :| 0 <= k < |valid| && Scored(hits, valid)[k] == h;
    assert InRange(valid[k], |hits|);
    assert h == hits[valid[k].index.value].(score := h.score);
  }

  lemma HitsAreDrawn(hits: seq<Hit>, h: Hit)
    requires h in hits
    ensures DrawnFrom(h, hits)
  {
    var i :| 0 <= i < |hits| && hits[i] == h;
    assert h == hits[i].(score := h.score);
  }

  lemma SortedMember(hits: seq<Hit>, h: Hit)
    requires h in SortDesc(ScoreOf, hits)
    ensures h in hits
  {
    SortDescSorts(ScoreOf, hits);
    assert h in multiset(SortDesc(ScoreOf, hits));
  }

  /** Every result is an input hit, possibly with another score; unless it is the input itself it is sorted. */
  lemma ResultIsDrawnFromHits(hits: seq<Hit>, answer: Option<seq<Row>>, spread: real)
    ensures var r := RerankSpec(hits, answer, spread);
      && (r == hits || Descending(ScoreOf, r))
      && forall h | h in r :: DrawnFrom(h, hits)
  {
    hide SortDesc, Scored, DrawnFrom, Descending;
    var r := RerankSpec(hits, answer, spread);
    forall h | h in r
      ensures DrawnFrom(h, hits)
    {
      if h in hits {
        HitsAreDrawn(hits, h);
      } else {
        var valid := Valid(answer.value, |hits|);
        var scores := InputScores(valid, |hits|);
        if Flat(scores, spread) {
          GuardedIsDrawn(hits, scores, h);
        } else {
          SortedMember(Scored(hits, valid), h);
          ScoredAreDrawn(hits, valid, h);
        }
      }
    }
    if r != hits {
      var valid := Valid(answer.value, |hits|);
      var scores := InputScores(valid, |hits|);
      if Flat(scores, spread) {
        GuardedOrderSurvives(hits, scores);
        SortDescSorts(ScoreOf, Guarded(hits, scores));
      } else {
        SortDescSorts(ScoreOf, Scored(hits, valid));
      }
    }
  }

  lemma GuardedIsDrawn(hits: seq<Hit>, scores: seq<real>, h: Hit)
    requires |hits| == |scores| && h in Guarded(hits, scores)
    ensures DrawnFrom(h, hits)
  {
    GuardedOrderSurvives(hits, scores);
    var i :| 0 <= i < |hits| && Guarded(hits, scores)[i] == h;
    assert h == hits[i].(score := h.score);
  }

  // ---------------------------------------------------------------- the result, told from the answer

  /** The row points to one of `n` hits. */
  predicate Usable(row: Row, n: nat) {
    row.index.Some? && 0 <= row.index.value < n
  }

  /** The last row that points to hit `i`. */
  ghost predicate LastFor(rows: seq<Row>, i: nat, k: nat) {
    k < |rows| && PointsTo(rows[k], i) && forall m | k < m < |rows| :: !PointsTo(rows[m], i)
  }

  /** Every hit's score: that of the last row that points to it, or 0. */
  ghost predicate AreInputScores(scores: seq<real>, rows: seq<Row>, n: nat) {
    && |scores| == n
    && (forall i: nat, k: nat | i < n && LastFor(rows, i, k) :: rows[k].relevance == Some(scores[i]))
    && (forall i: nat | i < n && (forall k | 0 <= k < |rows| :: !PointsTo(rows[k], i)) :: scores[i] == 0.0)
  }

  /** How many scores exceed `v`. */
  ghost function Above(scores: seq<real>, v: real): nat {
    if scores == [] then 0 else (if scores[0] > v then 1 else 0) + Above(scores[1..], v)
  }

  /** Any two of the five largest scores lie within the spread; a score is one of them when fewer than five exceed it. */
  ghost predicate FiveWithin(scores: seq<real>, spread: real) {
    && |scores| >= 2
    && forall i, j | 0 <= i < |scores| && 0 <= j < |scores| && Above(scores, scores[i]) < 5 && Above(scores, scores[j]) < 5 ::
         scores[i] - scores[j] < spread
  }

  /** For every row that points to a hit, that hit with the row's score. */
  ghost function Pointed(hits: seq<Hit>, rows: seq<Row>): seq<Hit> {
    if rows == [] then []
    else
      var row := rows[0];
      (if Usable(row, |hits|) && row.relevance.Some? then [hits[row.index.value].(score := row.relevance.value)] else [])
      + Pointed(hits, rows[1..])
  }

  /** The same hits in the same order, with other scores at most: these, from the highest down. */
  ghost predicate KeepsOrder(hits: seq<Hit>, scores: seq<real>, r: seq<Hit>) {
    && |r| == |hits| && (forall i | 0 <= i < |r| :: r[i] == hits[i].(score := r[i].score))
    && multiset(Scores(r)) == multiset(scores) && Descending(ScoreOf, r)
  }

  /** The hits pointed to, from the highest score down; those of equal score in the order of the rows. */
  ghost predicate FollowsRows(hits: seq<Hit>, rows: seq<Row>, r: seq<Hit>) {
    && Descending(ScoreOf, r) && multiset(r) == multiset(Pointed(hits, rows))
    && forall v :: WithKey(ScoreOf, v, r) == WithKey(ScoreOf, v, Pointed(hits, rows))
  }

  /** A usable answer: some row points to a hit, and every such row has a score. */
  ghost predicate CanScore(hits: seq<Hit>, rows: seq<Row>) {
    && (exists k :: 0 <= k < |rows| && Usable(rows[k], |hits|))
    && forall k | 0 <= k < |rows| && Usable(rows[k], |hits|) :: rows[k].relevance.Some?
  }

  /** What reranking does, by the answer alone. */
  ghost predicate Reranked(hits: seq<Hit>, answer: Option<seq<Row>>, spread: real, r: seq<Hit>) {
    if answer.None? || !CanScore(hits, answer.value) then r == hits
    else
      exists scores :: AreInputScores(scores, answer.value, |hits|) &&
        if FiveWithin(scores, spread) then KeepsOrder(hits, scores, r) else FollowsRows(hits, answer.value, r)
  }

  lemma {:induction false} AboveInsert(x: real, ys: seq<real>, v: real)
    ensures Above(Insert(Identity, x, ys), v) == Above([x] + ys, v)
  {
    assert ([x] + ys)[1..] == ys;
    if !(ys == [] || x >= ys[0]) {
      AboveInsert(x, ys[1..], v);
      assert ([x] + ys[1..])[1..] == ys[1..];
    }
  }

  lemma {:induction false} AboveSorted(scores: seq<real>, v: real)
    ensures Above(SortDesc(Identity, scores), v) == Above(scores, v)
  {
    if scores != [] {
      AboveSorted(scores[1..], v);
      AboveInsert(scores[0], SortDesc(Identity, scores[1..]), v);
      assert ([scores[0]] + SortDesc(Identity, scores[1..]))[1..] == SortDesc(Identity, scores[1..]);
    }
  }

  /** In a descending list exactly a prefix exceeds `v`. */
  lemma {:induction false} AboveInDescending(s: seq<real>, v: real, m: nat)
    requires Descending(Identity, s) && m <= |s|
    ensures (forall i | 0 <= i < m :: s[i] > v) ==> Above(s, v) >= m
    ensures (forall i | m <= i < |s| :: s[i] <= v) ==> Above(s, v) <= m
    decreases |s|
  {
    if s != [] && m > 0 {
      var t := s[1..];
      DescendingTail(s);
      AboveInDescending(t, v, m - 1);
    } else if s != [] {
      NoneAbove(s, v);
    }
  }

  lemma DescendingTail(s: seq<real>)
    requires Descending(Identity, s) && s != []
    ensures Descending(Identity, s[1..])
  {
    forall i, j | 0 <= i < j < |s| - 1
      ensures Identity(s[1..][i]) >= Identity(s[1..][j])
    {
      assert s[1..][i] == s[i + 1] && s[1..][j] == s[j + 1];
    }
  }

  lemma {:induction false} NoneAbove(s: seq<real>, v: real)
    ensures (forall i | 0 <= i < |s| :: s[i] <= v) ==> Above(s, v) == 0
  {
    if s != [] {
      NoneAbove(s[1..], v);
    }
  }

  lemma SortedHas(scores: seq<real>, x: real)
    ensures x in SortDesc(Identity, scores) <==> x in scores
  {
    SortDescSorts(Identity, scores);
    assert x in multiset(SortDesc(Identity, scores)) <==> x in multiset(scores);
  }

  /** Sorting and cutting at five measures the spread of the five largest. */
  lemma FlatIsFiveWithin(scores: seq<real>, spread: real)
    ensures Flat(scores, spread) <==> FiveWithin(scores, spread)
  {
    hide SortDesc;
    SortDescSorts(Identity, scores);
    var s := SortDesc(Identity, scores);
    if |s| >= 2 {
      var m := if |s| <= 5 then |s| else 5;
      assert s[0] - s[m - 1] < spread <==> Flat(scores, spread);
      FiveEnds(scores, s, m, spread);
    }
  }

  lemma FiveEnds(scores: seq<real>, s: seq<real>, m: nat, spread: real)
    requires s == SortDesc(Identity, scores) && Descending(Identity, s) && |s| == |scores| >= 2
    requires m == if |s| <= 5 then |s| else 5
    ensures s[0] - s[m - 1] < spread <==> FiveWithin(scores, spread)
  {
    hide SortDesc, Descending, Above;
    if FiveWithin(scores, spread) {
      var i := EndIsAmongFive(scores, s, 0);
      var j := EndIsAmongFive(scores, s, m - 1);
      assert scores[i] - scores[j] < spread;
    }
    if s[0] - s[m - 1] < spread {
      forall i, j | 0 <= i < |scores| && 0 <= j < |scores| && Above(scores, scores[i]) < 5 && Above(scores, scores[j]) < 5
        ensures scores[i] - scores[j] < spread
      {
        AmongFive(scores, s, m, scores[j]);
        AtMostBest(scores, s, scores[i]);
      }
    }
  }

  lemma EndIsAmongFive(scores: seq<real>, s: seq<real>, k: nat) returns (i: nat)
    requires s == SortDesc(Identity, scores) && Descending(Identity, s) && k < |s| && k < 5
    ensures i < |scores| && scores[i] == s[k] && Above(scores, scores[i]) < 5
  {
    hide SortDesc;
    SortedHas(scores, s[k]);
    i :| 0 <= i < |scores| && scores[i] == s[k];
    AboveSorted(scores, s[k]);
    DescendingFrom(s, k);
    AboveInDescending(s, s[k], k);
  }

  lemma AtMostBest(scores: seq<real>, s: seq<real>, x: real)
    requires s == SortDesc(Identity, scores) && Descending(Identity, s) && x in scores
    ensures s != [] && x <= s[0]
  {
    hide SortDesc;
    SortedHas(scores, x);
    DescendingFrom(s, 0);
  }

  lemma AmongFive(scores: seq<real>, s: seq<real>, m: nat, x: real)
    requires s == SortDesc(Identity, scores) && Descending(Identity, s) && x in scores
    requires m == (if |s| <= 5 then |s| else 5) && m > 0 && Above(scores, x) < 5
    ensures x >= s[m - 1]
  {
    hide SortDesc;
    SortedHas(scores, x);
    AboveSorted(scores, x);
    var k :| 0 <= k < |s| && s[k] == x;
    DescendingFrom(s, k);
    DescendingFrom(s, m - 1);
    AboveInDescending(s, x, m);
  }

  lemma DescendingFrom(s: seq<real>, k: nat)
    requires Descending(Identity, s) && k < |s|
    ensures (forall i | 0 <= i <= k :: s[i] >= s[k]) && (forall i | k <= i < |s| :: s[i] <= s[k])
  {
    assert forall i | 0 <= i < k :: Identity(s[i]) >= Identity(s[k]);
    assert forall i | k < i < |s| :: Identity(s[k]) >= Identity(s[i]);
  }

  lemma {:induction false} ValidMember(rows: seq<Row>, n: nat, row: Row)
    ensures row in Valid(rows, n) <==> row in rows && Usable(row, n)
  {
    if rows != [] {
      ValidMember(rows[1..], n, row);
      assert rows == [rows[0]] + rows[1..];
    }
  }

  lemma {:induction false} PointedIsScored(hits: seq<Hit>, rows: seq<Row>)
    requires AllScored(Valid(rows, |hits|))
    ensures Pointed(hits, rows) == Scored(hits, Valid(rows, |hits|))
  {
    if rows != [] {
      var rest := Valid(rows[1..], |hits|);
      if InRange(rows[0], |hits|) {
        ScoredCons(hits, rows[0], rest);
      } else {
        assert Valid(rows, |hits|) == [] + rest == rest;
      }
      PointedIsScored(hits, rows[1..]);
    }
  }

  lemma ScoredCons(hits: seq<Hit>, row: Row, rest: seq<Row>)
    requires AllScored([row] + rest) && forall i | 0 <= i < |[row] + rest| :: InRange(([row] + rest)[i], |hits|)
    ensures AllScored(rest) && InRange(row, |hits|) && row.relevance.Some?
    ensures forall i | 0 <= i < |rest| :: InRange(rest[i], |hits|)
    ensures Scored(hits, [row] + rest) == [hits[row.index.value].(score := row.relevance.value)] + Scored(hits, rest)
  {
    assert ([row] + rest)[0] == row;
    assert forall i | 0 <= i < |rest| :: rest[i] == ([row] + rest)[i + 1];
  }

  /** The rows that point to hit `i`, in order, are the same among all rows and among the usable ones. */
  ghost function ForHit(rows: seq<Row>, i: nat): seq<Row> {
    if rows == [] then []
    else ForHit(rows[..|rows| - 1], i) + if PointsTo(rows[|rows| - 1], i) then [rows[|rows| - 1]] else []
  }

  lemma {:induction false} ForHitAppend(xs: seq<Row>, ys: seq<Row>, i: nat)
    ensures ForHit(xs + ys, i) == ForHit(xs, i) + ForHit(ys, i)
  {
    if ys == [] {
      assert xs + ys == xs;
    } else {
      assert (xs + ys)[..|xs + ys| - 1] == xs + ys[..|ys| - 1];
      ForHitAppend(xs, ys[..|ys| - 1], i);
    }
  }

  lemma {:induction false} ForHitValid(rows: seq<Row>, n: nat, i: nat)
    requires i < n
    ensures ForHit(Valid(rows, n), i) == ForHit(rows, i)
  {
    if rows != [] {
      ForHitValid(rows[1..], n, i);
      var head := if InRange(rows[0], n) then [rows[0]] else [];
      ForHitAppend(head, Valid(rows[1..], n), i);
      ForHitAppend([rows[0]], rows[1..], i);
      assert rows == [rows[0]] + rows[1..];
      assert [rows[0]][..0] == [];
    }
  }

  lemma {:induction false} LastOfHit(rows: seq<Row>, i: nat)
    ensures ForHit(rows, i) == [] ==> forall k | 0 <= k < |rows| :: !PointsTo(rows[k], i)
    ensures forall k: nat | LastFor(rows, i, k) :: ForHit(rows, i) != [] && ForHit(rows, i)[|ForHit(rows, i)| - 1] == rows[k]
  {
    if rows != [] {
      var n := |rows| - 1;
      LastOfHit(rows[..n], i);
      forall k: nat | LastFor(rows, i, k)
        ensures ForHit(rows, i) != [] && ForHit(rows, i)[|ForHit(rows, i)| - 1] == rows[k]
      {
        if k < n {
          assert !PointsTo(rows[n], i);
          assert LastFor(rows[..n], i, k);
        }
      }
    }
  }

  lemma {:induction false} LastInputScore(valid: seq<Row>, n: nat, i: nat)
    requires forall m | 0 <= m < |valid| :: InRange(valid[m], n) && valid[m].relevance.Some?
    requires i < n
    ensures var own := ForHit(valid, i);
      if own == [] then InputScores(valid, n)[i] == 0.0
      else own[|own| - 1].relevance == Some(InputScores(valid, n)[i])
  {
    if valid != [] {
      var k := |valid| - 1;
      assert InRange(valid[k], n);
      LastInputScore(valid[..k], n, i);
    }
  }

  lemma InputScoresAre(hits: seq<Hit>, rows: seq<Row>)
    requires AllScored(Valid(rows, |hits|))
    ensures AreInputScores(InputScores(Valid(rows, |hits|), |hits|), rows, |hits|)
  {
    hide Valid, ForHit, InputScores, PointsTo, LastFor;
    var n := |hits|;
    var valid := Valid(rows, n);
    var scores := InputScores(valid, n);
    forall i: nat | i < n
      ensures forall k: nat | LastFor(rows, i, k) :: k < |rows| && rows[k].relevance == Some(scores[i])
      ensures (forall k | 0 <= k < |rows| :: !PointsTo(rows[k], i)) ==> scores[i] == 0.0
    {
      LastInputScore(valid, n, i);
      ForHitValid(rows, n, i);
      LastOfHit(rows, i);
      NoneForHit(rows, i);
      forall k: nat | LastFor(rows, i, k) {
        LastForIs(rows, i, k);
      }
    }
  }

  lemma LastForIs(rows: seq<Row>, i: nat, k: nat)
    requires LastFor(rows, i, k)
    ensures k < |rows|
  {
  }

  lemma {:induction false} NoneForHit(rows: seq<Row>, i: nat)
    ensures (forall k | 0 <= k < |rows| :: !PointsTo(rows[k], i)) ==> ForHit(rows, i) == []
  {
    if rows != [] {
      NoneForHit(rows[..|rows| - 1], i);
      assert forall k | 0 <= k < |rows| - 1 :: rows[..|rows| - 1][k] == rows[k];
    }
  }

  lemma CanScoreIs(hits: seq<Hit>, rows: seq<Row>)
    ensures CanScore(hits, rows) <==> Valid(rows, |hits|) != [] && AllScored(Valid(rows, |hits|))
  {
    hide Valid;
    var valid := Valid(rows, |hits|);
    forall row {
      ValidMember(rows, |hits|, row);
    }
    if valid != [] {
      assert valid[0] in valid;
      var k :| 0 <= k < |rows| && rows[k] == valid[0];
    }
    if CanScore(hits, rows) {
      forall i | 0 <= i < |valid|
        ensures valid[i].relevance.Some?
      {
        assert valid[i] in valid;
        var k :| 0 <= k < |rows| && rows[k] == valid[i];
      }
    }
    if AllScored(valid) {
      forall k | 0 <= k < |rows| && Usable(rows[k], |hits|)
        ensures rows[k].relevance.Some?
      {
        assert rows[k] in valid;
        var i :| 0 <= i < |valid| && valid[i] == rows[k];
      }
    }
  }

  /** The outcome of reranking, whatever the answer. */
  lemma RerankSpecIs(hits: seq<Hit>, answer: Option<seq<Row>>, spread: real)
    ensures Reranked(hits, answer, spread, RerankSpec(hits, answer, spread))
  {
    hide Valid, AllScored, SortDesc, Scored, InputScores, CanScore, FiveWithin, AreInputScores, Descending, WithKey, Pointed, Best5;
    if answer.Some? {
      CanScoreIs(hits, answer.value);
      if CanScore(hits, answer.value) {
        var valid := Valid(answer.value, |hits|);
        var scores := ScoresOfValid(hits, answer.value);
        FlatIsFiveWithin(scores, spread);
        if Flat(scores, spread) {
          GuardedOrderSurvives(hits, scores);
          GuardedDescends(hits, scores);
        } else {
          PointedIsScored(hits, answer.value);
          SortDescSorts(ScoreOf, Scored(hits, valid));
        }
      }
    }
  }

  lemma ScoresOfValid(hits: seq<Hit>, rows: seq<Row>) returns (scores: seq<real>)
    requires AllScored(Valid(rows, |hits|))
    ensures forall i | 0 <= i < |Valid(rows, |hits|)| ::
      InRange(Valid(rows, |hits|)[i], |hits|) && Valid(rows, |hits|)[i].relevance.Some?
    ensures scores == InputScores(Valid(rows, |hits|), |hits|)
    ensures AreInputScores(scores, rows, |hits|)
  {
    scores := InputScores(Valid(rows, |hits|), |hits|);
    InputScoresAre(hits, rows);
  }

  lemma GuardedDescends(hits: seq<Hit>, scores: seq<real>)
    requires |hits| == |scores|
    ensures Descending(ScoreOf, Guarded(hits, scores)) && |Guarded(hits, scores)| == |hits|
  {
    SortDescSorts(Identity, scores);
    var ordered, out := SortDesc(Identity, scores), Guarded(hits, scores);
    forall i, j | 0 <= i < j < |out|
      ensures ScoreOf(out[i]) >= ScoreOf(out[j])
    {
      assert Identity(ordered[i]) >= Identity(ordered[j]);
    }
  }

  lemma InRangeMeans(row: Row, n: nat)
    ensures InRange(row, n) <==> row.index.Some? && 0 <= row.index.value < n
  {
  }

  method RerankApi(hits: seq<Hit>, answer: Option<seq<Row>>, spread: real) returns (r: seq<Hit>)
    ensures r == RerankSpec(hits, answer, spread)
    ensures Reranked(hits, answer, spread, r)
  {
    hide Valid, FlatGuard, Scored, InRange, SortDesc, Reranked;
    RerankSpecIs(hits, answer, spread);
    if answer.None? {
      return hits;
    }
    var valid := Valid(answer.value, |hits|);
    if valid == [] {
      return hits;
    }
    var inputScores := seq(|hits|, _ => 0.0);
    for i := 0 to |valid|
      invariant |inputScores| == |hits|
      invariant AllScored(valid[..i]) && forall k | 0 <= k < i :: InRange(valid[..i][k], |hits|)
      invariant inputScores == InputScores(valid[..i], |hits|)
    {
      InRangeMeans(valid[i], |hits|);
      if valid[i].relevance.None? {
        assert !AllScored(valid);
        return hits;
      }
      assert valid[..i + 1][..i] == valid[..i];
      inputScores := inputScores[valid[i].index.value := valid[i].relevance.value];
    }
    assert valid[..|valid|] == valid;
    var guarded := FlatGuard(hits, inputScores, spread);
    if guarded.Some? {
      return guarded.value;
    }
    r := SortDesc(ScoreOf, Scored(hits, valid));
  }
}
