/** Reciprocal rank fusion of several ranked lists. */
module Fuse {
  import opened Text
  import opened Hits
  import opened Ranking

  const RRF_K := 60

  datatype Arm = Arm(hits: seq<Hit>, weight: real)

  datatype Outcome = Fused(hits: seq<Hit>) | LengthMismatch

  /** What the hit at 0-based position `r` of a list adds to its chunk's score. */
  function Contribution(weight: real, r: nat): real {
    weight / (RRF_K + r + 1) as real
  }

  /** What one list adds to a chunk's score. */
  function ArmScore(arm: Arm, n: nat, chunk: nat): real
    requires n <= |arm.hits|
  {
    if n == 0 then 0.0
    else ArmScore(arm, n - 1, chunk) + if arm.hits[n - 1].chunkId == chunk then Contribution(arm.weight, n - 1) else 0.0
  }

  /** The weighted reciprocal-rank sum. */
  function Score(arms: seq<Arm>, chunk: nat): real {
    if arms == [] then 0.0
    else
      var arm := arms[|arms| - 1];
      Score(arms[..|arms| - 1], chunk) + ArmScore(arm, |arm.hits|, chunk)
  }

  /** All hits in the order they are visited. */
  function Visited(arms: seq<Arm>): seq<Hit> {
    if arms == [] then [] else Visited(arms[..|arms| - 1]) + arms[|arms| - 1].hits
  }

  predicate Mentions(hits: seq<Hit>, chunk: nat) {
    exists i | 0 <= i < |hits| :: hits[i].chunkId == chunk
  }

  /** The first hit of every chunk, in the order visited. */
  function FirstSeen(hits: seq<Hit>): seq<Hit> {
    if hits == [] then []
    else
      var rest, h := FirstSeen(hits[..|hits| - 1]), hits[|hits| - 1];
      if Mentions(rest, h.chunkId) then rest else rest + [h]
  }

  /** One hit per chunk, each of them a visited hit, and no chunk missing. */
  lemma {:induction false} FirstSeenIs(hits: seq<Hit>)
    ensures forall i, j | 0 <= i < j < |FirstSeen(hits)| :: FirstSeen(hits)[i].chunkId != FirstSeen(hits)[j].chunkId
    ensures forall h | h in FirstSeen(hits) :: h in hits
    ensures forall h | h in hits :: Mentions(FirstSeen(hits), h.chunkId)
  {
    if hits != [] {
      var init, h := hits[..|hits| - 1], hits[|hits| - 1];
      var rest := FirstSeen(init);
      FirstSeenIs(init);
      assert hits == init + [h];
      forall g | g in hits
        ensures Mentions(FirstSeen(hits), g.chunkId)
      {
        MentionsOneMore(rest, h, g.chunkId);
      }
    }
  }

  /** The first hit of the chunk stands at `i`. */
  ghost predicate FirstAt(hits: seq<Hit>, chunk: nat, i: nat) {
    i < |hits| && hits[i].chunkId == chunk && forall j | 0 <= j < i :: hits[j].chunkId != chunk
  }

  /** What is kept of a chunk is its very first hit, and chunks are kept in the order of their first hits. */
  lemma {:induction false} FirstSeenAt(hits: seq<Hit>) returns (at: seq<nat>)
    ensures |at| == |FirstSeen(hits)|
    ensures forall k | 0 <= k < |at| ::
      at[k] < |hits| && FirstAt(hits, FirstSeen(hits)[k].chunkId, at[k]) && hits[at[k]] == FirstSeen(hits)[k]
    ensures forall k, m | 0 <= k < m < |at| :: at[k] < at[m]
  {
    at := [];
    if hits != [] {
      hide FirstAt, Mentions;
      var n := |hits| - 1;
      var init, h := hits[..n], hits[n];
      var rest := FirstSeen(init);
      at := FirstSeenAt(init);
      assert hits == init + [h];
      forall k | 0 <= k < |at|
        ensures FirstAt(hits, rest[k].chunkId, at[k]) && hits[at[k]] == rest[k]
      {
        FirstAtSnoc(init, h, rest[k].chunkId, at[k]);
      }
      if !Mentions(rest, h.chunkId) {
        NewFirst(init, h);
        at := at + [n];
      }
    }
  }

  lemma FirstAtSnoc(init: seq<Hit>, h: Hit, chunk: nat, i: nat)
    requires FirstAt(init, chunk, i)
    ensures i < |init| && FirstAt(init + [h], chunk, i) && (init + [h])[i] == init[i]
  {
  }

  lemma NewFirst(init: seq<Hit>, h: Hit)
    requires !Mentions(FirstSeen(init), h.chunkId)
    ensures FirstAt(init + [h], h.chunkId, |init|)
  {
    hide FirstSeen;
    FirstSeenIs(init);
    forall j | 0 <= j < |init|
      ensures (init + [h])[j].chunkId != h.chunkId
    {
      assert init[j] in init;
    }
  }

  /** The fused hits before sorting: the first hit of every chunk, with the fused score. */
  function FusedHits(arms: seq<Arm>): seq<Hit> {
    var first := FirstSeen(Visited(arms));
    seq(|first|, k requires 0 <= k < |first| => first[k].(score := Score(arms, first[k].chunkId)))
  }

  function FuseSpec(arms: seq<Arm>): seq<Hit> {
    SortDesc(ScoreOf, FusedHits(arms))
  }

  // ---------------------------------------------------------------- the loop

  /** The score after `i` whole lists and `j` hits of the next. */
  function Partial(arms: seq<Arm>, i: nat, j: nat, chunk: nat): real
    requires i < |arms| && j <= |arms[i].hits|
  {
    Score(arms[..i], chunk) + ArmScore(arms[i], j, chunk)
  }

  function VisitedPart(arms: seq<Arm>, i: nat, j: nat): seq<Hit>
    requires i < |arms| && j <= |arms[i].hits|
  {
    Visited(arms[..i]) + arms[i].hits[..j]
  }

  lemma {:induction false} ArmScoreUnmentioned(arm: Arm, n: nat, chunk: nat)
    requires n <= |arm.hits| && !Mentions(arm.hits[..n], chunk)
    ensures ArmScore(arm, n, chunk) == 0.0
  {
    if n > 0 {
      assert arm.hits[..n][n - 1] == arm.hits[n - 1];
      assert arm.hits[..n - 1] == arm.hits[..n][..n - 1];
      assert forall i | 0 <= i < n - 1 :: arm.hits[..n - 1][i] == arm.hits[..n][i];
      ArmScoreUnmentioned(arm, n - 1, chunk);
    }
  }

  lemma {:induction false} ScoreUnmentioned(arms: seq<Arm>, chunk: nat)
    requires !Mentions(Visited(arms), chunk)
    ensures Score(arms, chunk) == 0.0
  {
    if arms != [] {
      var init, arm := arms[..|arms| - 1], arms[|arms| - 1];
      var v := Visited(arms);
      assert forall i | 0 <= i < |Visited(init)| :: v[i] == Visited(init)[i];
      assert forall i | 0 <= i < |arm.hits| :: v[|Visited(init)| + i] == arm.hits[i];
      ScoreUnmentioned(init, chunk);
      assert arm.hits[..|arm.hits|] == arm.hits;
      ArmScoreUnmentioned(arm, |arm.hits|, chunk);
    }
  }

  predicate KeysOf(keys: seq<nat>, first: seq<Hit>) {
    |keys| == |first| && forall k | 0 <= k < |keys| :: keys[k] == first[k].chunkId
  }

  /** The values: each chunk's first hit with its score so far. */
  ghost predicate Values(fused: map<nat, Hit>, first: seq<Hit>, arms: seq<Arm>, i: nat, j: nat)
    requires i < |arms| && j <= |arms[i].hits|
  {
    && (forall c :: c in fused <==> Mentions(first, c))
    && (forall k | 0 <= k < |first| && first[k].chunkId in fused ::
          fused[first[k].chunkId] == first[k].(score := Partial(arms, i, j, first[k].chunkId)))
  }

  /** The dictionary: its keys in insertion order are the chunks first seen, its values their hits and scores so far. */
  ghost predicate Accumulated(keys: seq<nat>, fused: map<nat, Hit>, arms: seq<Arm>, i: nat, j: nat)
    requires i < |arms| && j <= |arms[i].hits|
  {
    var first := FirstSeen(VisitedPart(arms, i, j));
    KeysOf(keys, first) && Values(fused, first, arms, i, j)
  }

  lemma FirstSeenOneMore(arms: seq<Arm>, i: nat, j: nat)
    requires i < |arms| && j < |arms[i].hits|
    ensures
      var hit, first := arms[i].hits[j], FirstSeen(VisitedPart(arms, i, j));
      FirstSeen(VisitedPart(arms, i, j + 1)) ==
        if Mentions(first, hit.chunkId) then first else first + [hit]
  {
    var seen := VisitedPart(arms, i, j);
    assert VisitedPart(arms, i, j + 1) == seen + [arms[i].hits[j]];
    assert (seen + [arms[i].hits[j]])[..|seen|] == seen;
  }

  lemma PartialOneMore(arms: seq<Arm>, i: nat, j: nat, chunk: nat)
    requires i < |arms| && j < |arms[i].hits|
    ensures Partial(arms, i, j + 1, chunk) == Partial(arms, i, j, chunk) +
      if arms[i].hits[j].chunkId == chunk then Contribution(arms[i].weight, j) else 0.0
  {
  }

  lemma PartialOfNew(arms: seq<Arm>, i: nat, j: nat, chunk: nat)
    requires i < |arms| && j < |arms[i].hits|
    requires !Mentions(FirstSeen(VisitedPart(arms, i, j)), chunk)
    ensures Partial(arms, i, j, chunk) == 0.0
  {
    hide FirstSeen, Score, ArmScore, Visited;
    var seen, before := VisitedPart(arms, i, j), Visited(arms[..i]);
    FirstSeenIs(seen);
    assert forall k | 0 <= k < |seen| :: seen[k] in seen;
    assert forall k | 0 <= k < |before| :: seen[k] == before[k];
    assert forall k | 0 <= k < j :: seen[|before| + k] == arms[i].hits[..j][k];
    ScoreUnmentioned(arms[..i], chunk);
    ArmScoreUnmentioned(arms[i], j, chunk);
  }

  lemma MentionsOneMore(hits: seq<Hit>, hit: Hit, c: nat)
    ensures Mentions(hits + [hit], c) <==> Mentions(hits, c) || c == hit.chunkId
  {
    assert (hits + [hit])[|hits|] == hit;
    assert forall k | 0 <= k < |hits| :: (hits + [hit])[k] == hits[k];
  }

  lemma ValuesNew(fused: map<nat, Hit>, first: seq<Hit>, arms: seq<Arm>, i: nat, j: nat)
    requires i < |arms| && j < |arms[i].hits| && Values(fused, first, arms, i, j)
    requires var c := arms[i].hits[j].chunkId; c !in fused && Partial(arms, i, j, c) == 0.0
    ensures
      var hit := arms[i].hits[j];
      Values(fused[hit.chunkId := hit.(score := Contribution(arms[i].weight, j))], first + [hit], arms, i, j + 1)
  {
    hide Partial, Contribution, Mentions;
    var hit := arms[i].hits[j];
    var fused', first' := fused[hit.chunkId := hit.(score := Contribution(arms[i].weight, j))], first + [hit];
    forall c
      ensures c in fused' <==> Mentions(first', c)
    {
      MentionsOneMore(first, hit, c);
    }
    forall k | 0 <= k < |first'| && first'[k].chunkId in fused'
      ensures fused'[first'[k].chunkId] == first'[k].(score := Partial(arms, i, j + 1, first'[k].chunkId))
    {
      PartialOneMore(arms, i, j, first'[k].chunkId);
      if k < |first| {
        MentionsAt(first, k);
      }
    }
  }

  lemma MentionsAt(hits: seq<Hit>, k: nat)
    requires k < |hits|
    ensures Mentions(hits, hits[k].chunkId)
  {
  }

  lemma ValuesOld(fused: map<nat, Hit>, first: seq<Hit>, arms: seq<Arm>, i: nat, j: nat)
    requires i < |arms| && j < |arms[i].hits| && Values(fused, first, arms, i, j)
    requires arms[i].hits[j].chunkId in fused
    ensures
      var c := arms[i].hits[j].chunkId;
      Values(fused[c := fused[c].(score := fused[c].score + Contribution(arms[i].weight, j))], first, arms, i, j + 1)
  {
    hide Partial, Contribution, Mentions;
    var c := arms[i].hits[j].chunkId;
    var fused' := fused[c := fused[c].(score := fused[c].score + Contribution(arms[i].weight, j))];
    forall k | 0 <= k < |first| && first[k].chunkId in fused'
      ensures fused'[first[k].chunkId] == first[k].(score := Partial(arms, i, j + 1, first[k].chunkId))
    {
      PartialOneMore(arms, i, j, first[k].chunkId);
    }
    assert forall c :: c in fused' <==> c in fused;
  }

  lemma AccumulateNew(keys: seq<nat>, fused: map<nat, Hit>, arms: seq<Arm>, i: nat, j: nat)
    requires i < |arms| && j < |arms[i].hits| && Accumulated(keys, fused, arms, i, j)
    requires arms[i].hits[j].chunkId !in fused
    ensures
      var hit := arms[i].hits[j];
      Accumulated(keys + [hit.chunkId], fused[hit.chunkId := hit.(score := Contribution(arms[i].weight, j))], arms, i, j + 1)
  {
    hide FirstSeen, VisitedPart, Partial, Contribution, Mentions;
    FirstSeenOneMore(arms, i, j);
    PartialOfNew(arms, i, j, arms[i].hits[j].chunkId);
    ValuesNew(fused, FirstSeen(VisitedPart(arms, i, j)), arms, i, j);
  }

  lemma AccumulateOld(keys: seq<nat>, fused: map<nat, Hit>, arms: seq<Arm>, i: nat, j: nat)
    requires i < |arms| && j < |arms[i].hits| && Accumulated(keys, fused, arms, i, j)
    requires arms[i].hits[j].chunkId in fused
    ensures
      var c := arms[i].hits[j].chunkId;
      Accumulated(keys, fused[c := fused[c].(score := fused[c].score + Contribution(arms[i].weight, j))], arms, i, j + 1)
  {
    hide FirstSeen, VisitedPart, Partial, Contribution, Mentions;
    FirstSeenOneMore(arms, i, j);
    ValuesOld(fused, FirstSeen(VisitedPart(arms, i, j)), arms, i, j);
  }

  /** One list, hit by hit. */
  method FuseArm(arms: seq<Arm>, i: nat, keys0: seq<nat>, fused0: map<nat, Hit>) returns (keys: seq<nat>, fused: map<nat, Hit>)
    requires i < |arms| && Accumulated(keys0, fused0, arms, i, 0)
    ensures Accumulated(keys, fused, arms, i, |arms[i].hits|)
  {
    hide Accumulated, FirstSeen;
    keys, fused := keys0, fused0;
    for j := 0 to |arms[i].hits|
      invariant Accumulated(keys, fused, arms, i, j)
    {
      var hit := arms[i].hits[j];
      var contribution := Contribution(arms[i].weight, j);
      if hit.chunkId !in fused {
        AccumulateNew(keys, fused, arms, i, j);
        keys, fused := keys + [hit.chunkId], fused[hit.chunkId := hit.(score := contribution)];
      } else {
        AccumulateOld(keys, fused, arms, i, j);
        var old_ := fused[hit.chunkId];
        fused := fused[hit.chunkId := old_.(score := old_.score + contribution)];
      }
    }
  }

  /** The hits in ranked lists, fused and sorted best first; lists and weights must pair up. */
  method RrfFuse(rankedLists: seq<seq<Hit>>, weights: Option<seq<real>>) returns (r: Outcome)
    ensures
      var ws := if weights.Some? then weights.value else seq(|rankedLists|, _ => 1.0);
      r == if |ws| != |rankedLists| then LengthMismatch else Fused(FuseSpec(Zip(rankedLists, ws)))
  {
    var ws := if weights.Some? then weights.value else seq(|rankedLists|, _ => 1.0);
    if |ws| != |rankedLists| {
      return LengthMismatch;
    }
    var arms := Zip(rankedLists, ws);
    hide Accumulated, FusedHits;
    var keys: seq<nat>, fused: map<nat, Hit> := [], map[];
    NothingFused(arms);
    for i := 0 to |arms|
      invariant i < |arms| ==> Accumulated(keys, fused, arms, i, 0)
      invariant i == |arms| > 0 ==> Accumulated(keys, fused, arms, i - 1, |arms[i - 1].hits|)
      invariant i == |arms| == 0 ==> keys == []
    {
      keys, fused := FuseArm(arms, i, keys, fused);
      if i + 1 < |arms| {
        NextArm(keys, fused, arms, i);
      }
    }
    if |arms| > 0 {
      LastArm(keys, fused, arms);
    }
    var values := seq(|keys|, k requires 0 <= k < |keys| && keys[k] in fused => fused[keys[k]]);
    assert values == FusedHits(arms);
    r := Fused(SortDesc(ScoreOf, values));
  }

  function Zip(lists: seq<seq<Hit>>, ws: seq<real>): seq<Arm>
    requires |lists| == |ws|
  {
    seq(|lists|, i requires 0 <= i < |lists| => Arm(lists[i], ws[i]))
  }

  /** Each list goes with the weight at its place. */
  lemma ZipIs(lists: seq<seq<Hit>>, ws: seq<real>, i: nat)
    requires |lists| == |ws|
    ensures |Zip(lists, ws)| == |lists|
    ensures i < |lists| ==> Zip(lists, ws)[i].hits == lists[i] && Zip(lists, ws)[i].weight == ws[i]
  {
  }

  lemma NothingFused(arms: seq<Arm>)
    ensures arms == [] ==> FusedHits(arms) == []
    ensures arms != [] ==> Accumulated([], map[], arms, 0, 0)
  {
  }

  lemma NextArm(keys: seq<nat>, fused: map<nat, Hit>, arms: seq<Arm>, i: nat)
    requires i + 1 < |arms| && Accumulated(keys, fused, arms, i, |arms[i].hits|)
    ensures Accumulated(keys, fused, arms, i + 1, 0)
  {
    hide FirstSeen, VisitedPart, Partial, Mentions;
    var first := FirstSeen(VisitedPart(arms, i, |arms[i].hits|));
    PartialNext(arms, i, 0);
    forall k | 0 <= k < |first| && first[k].chunkId in fused
      ensures fused[first[k].chunkId] == first[k].(score := Partial(arms, i + 1, 0, first[k].chunkId))
    {
      PartialNext(arms, i, first[k].chunkId);
    }
  }

  lemma PartialNext(arms: seq<Arm>, i: nat, chunk: nat)
    requires i + 1 < |arms|
    ensures VisitedPart(arms, i + 1, 0) == VisitedPart(arms, i, |arms[i].hits|)
    ensures Partial(arms, i + 1, 0, chunk) == Partial(arms, i, |arms[i].hits|, chunk)
  {
    assert arms[..i + 1][..i] == arms[..i];
    assert arms[i].hits[..|arms[i].hits|] == arms[i].hits;
  }

  lemma LastArm(keys: seq<nat>, fused: map<nat, Hit>, arms: seq<Arm>)
    requires |arms| > 0 && Accumulated(keys, fused, arms, |arms| - 1, |arms[|arms| - 1].hits|)
    ensures |keys| == |FusedHits(arms)|
    ensures forall k | 0 <= k < |keys| :: keys[k] in fused && fused[keys[k]] == FusedHits(arms)[k]
  {
    var last := |arms| - 1;
    assert VisitedPart(arms, last, |arms[last].hits|) == Visited(arms);
  }

  // ---------------------------------------------------------------- what the scores mean

  /** No chunk twice in one list. */
  ghost predicate NoRepeats(hits: seq<Hit>) {
    forall i, j | 0 <= i < j < |hits| :: hits[i].chunkId != hits[j].chunkId
  }

  lemma {:induction false} ArmScoreAt(arm: Arm, n: nat, r: nat)
    requires r < n <= |arm.hits| && NoRepeats(arm.hits)
    ensures ArmScore(arm, n, arm.hits[r].chunkId) == Contribution(arm.weight, r)
  {
    var c := arm.hits[r].chunkId;
    if r == n - 1 {
      ArmScoreUnmentioned(arm, n - 1, c);
    } else {
      ArmScoreAt(arm, n - 1, r);
    }
  }

  /** One hit in one list: at rank `r`, counted from 0, its chunk scores the list's weight over 61 + r. */
  lemma ScoreOfRank(arm: Arm, r: nat)
    requires r < |arm.hits| && NoRepeats(arm.hits)
    ensures Score([arm], arm.hits[r].chunkId) == arm.weight / (61 + r) as real
  {
    ArmScoreAt(arm, |arm.hits|, r);
    assert [arm][..0] == [];
  }

  lemma {:induction false} ScoreSplit(xs: seq<Arm>, ys: seq<Arm>, chunk: nat)
    ensures Score(xs + ys, chunk) == Score(xs, chunk) + Score(ys, chunk)
  {
    if ys == [] {
      assert xs + ys == xs;
    } else {
      assert (xs + ys)[..|xs + ys| - 1] == xs + ys[..|ys| - 1];
      ScoreSplit(xs, ys[..|ys| - 1], chunk);
    }
  }

  lemma ScoreWithout(ys: seq<Arm>, k: nat, chunk: nat)
    requires k < |ys|
    ensures var rest := ys[..k] + ys[k + 1..];
      Score(ys, chunk) == Score([ys[k]], chunk) + Score(rest, chunk) && multiset(ys) == multiset(rest) + multiset{ys[k]}
  {
    hide Score;
    assert ys == ys[..k] + ([ys[k]] + ys[k + 1..]);
    ScoreSplit(ys[..k], [ys[k]] + ys[k + 1..], chunk);
    ScoreSplit([ys[k]], ys[k + 1..], chunk);
    ScoreSplit(ys[..k], ys[k + 1..], chunk);
  }

  /** The score does not depend on the order in which the lists, with their weights, are given. */
  lemma {:induction false} ScoreIgnoresOrder(xs: seq<Arm>, ys: seq<Arm>, chunk: nat)
    requires multiset(xs) == multiset(ys)
    ensures Score(xs, chunk) == Score(ys, chunk)
    decreases |xs|
  {
    hide Score;
    if xs == [] {
      assert |multiset(ys)| == 0;
    } else {
      assert xs[0] in multiset(ys);
      var k :| 0 <= k < |ys| && ys[k] == xs[0];
      ScoreWithout(xs, 0, chunk);
      ScoreWithout(ys, k, chunk);
      var xr, yr := xs[..0] + xs[1..], ys[..k] + ys[k + 1..];
      assert multiset(xr) == multiset(xs) - multiset{xs[0]} == multiset(yr);
      ScoreIgnoresOrder(xr, yr, chunk);
    }
  }

  function WeightSum(arms: seq<Arm>): real {
    if arms == [] then 0.0 else WeightSum(arms[..|arms| - 1]) + arms[|arms| - 1].weight
  }

  lemma ContributionOrder(w: real, r: nat, q: nat)
    requires w >= 0.0 && r <= q
    ensures 0.0 <= Contribution(w, q) <= Contribution(w, r) <= w / 61.0
    ensures w > 0.0 ==> Contribution(w, q) > 0.0
    ensures w > 0.0 && r < q ==> Contribution(w, q) < Contribution(w, r)
  {
    DivOrder(w, (RRF_K + r + 1) as real, (RRF_K + q + 1) as real);
    DivOrder(w, 61.0, (RRF_K + r + 1) as real);
  }

  lemma DivOrder(w: real, a: real, b: real)
    requires w >= 0.0 && 0.0 < a <= b
    ensures 0.0 <= w / b <= w / a
    ensures w > 0.0 ==> w / b > 0.0
    ensures w > 0.0 && a < b ==> w / b < w / a
  {
    var p, q := w / a, w / b;
    assert p * a == w && q * b == w;
    if w > 0.0 {
      assert q > 0.0;
      assert p * a == q * b == q * a + q * (b - a);
      assert (p - q) * a == q * (b - a);
    }
  }

  /** The best score a chunk can reach: first in every list. */
  lemma {:induction false} ScoreBound(arms: seq<Arm>, chunk: nat)
    requires forall arm | arm in arms :: arm.weight >= 0.0 && NoRepeats(arm.hits)
    ensures 0.0 <= Score(arms, chunk) <= WeightSum(arms) / 61.0
  {
    if arms != [] {
      var init, arm := arms[..|arms| - 1], arms[|arms| - 1];
      assert arm in arms && forall a | a in init :: a in arms;
      ScoreBound(init, chunk);
      ArmScoreRange(arm, chunk);
    }
  }

  lemma ArmScoreRange(arm: Arm, chunk: nat)
    requires arm.weight >= 0.0 && NoRepeats(arm.hits)
    ensures 0.0 <= ArmScore(arm, |arm.hits|, chunk) <= arm.weight / 61.0
  {
    assert arm.hits[..|arm.hits|] == arm.hits;
    if Mentions(arm.hits, chunk) {
      var r :| 0 <= r < |arm.hits| && arm.hits[r].chunkId == chunk;
      ArmScoreAt(arm, |arm.hits|, r);
      ContributionOrder(arm.weight, r, r);
    } else {
      ArmScoreUnmentioned(arm, |arm.hits|, chunk);
      DivOrder(arm.weight, 61.0, 61.0);
    }
  }

  /** Wherever `y` is listed, `x` is listed above it. */
  ghost predicate Beats(arm: Arm, x: nat, y: nat) {
    forall q | 0 <= q < |arm.hits| && arm.hits[q].chunkId == y ::
      exists r :: 0 <= r < q && arm.hits[r].chunkId == x
  }

  lemma ArmScoreBeats(arm: Arm, x: nat, y: nat)
    requires arm.weight > 0.0 && NoRepeats(arm.hits) && Beats(arm, x, y)
    ensures ArmScore(arm, |arm.hits|, x) >= ArmScore(arm, |arm.hits|, y)
    ensures Mentions(arm.hits, y) ==> ArmScore(arm, |arm.hits|, x) > ArmScore(arm, |arm.hits|, y)
  {
    assert arm.hits[..|arm.hits|] == arm.hits;
    if Mentions(arm.hits, y) {
      var q :| 0 <= q < |arm.hits| && arm.hits[q].chunkId == y;
      var r :| 0 <= r < q && arm.hits[r].chunkId == x;
      ArmScoreAt(arm, |arm.hits|, q);
      ArmScoreAt(arm, |arm.hits|, r);
      ContributionOrder(arm.weight, r, q);
    } else {
      ArmScoreUnmentioned(arm, |arm.hits|, y);
      ArmScoreRange(arm, x);
    }
  }

  lemma {:induction false} ScoreBeats(arms: seq<Arm>, x: nat, y: nat)
    requires forall arm | arm in arms :: arm.weight > 0.0 && NoRepeats(arm.hits) && Beats(arm, x, y)
    ensures Score(arms, x) >= Score(arms, y)
    ensures Mentions(Visited(arms), y) ==> Score(arms, x) > Score(arms, y)
  {
    if arms != [] {
      hide Mentions, Beats, NoRepeats, ArmScore;
      var init, arm := arms[..|arms| - 1], arms[|arms| - 1];
      assert arm in arms && forall a | a in init :: a in arms;
      ScoreBeats(init, x, y);
      ArmScoreBeats(arm, x, y);
      MentionsAppend(Visited(init), arm.hits, y);
    }
  }

  lemma MentionsAppend(xs: seq<Hit>, ys: seq<Hit>, y: nat)
    ensures Mentions(xs + ys, y) ==> Mentions(xs, y) || Mentions(ys, y)
  {
    if i :| 0 <= i < |xs + ys| && (xs + ys)[i].chunkId == y {
      assert if i < |xs| then xs[i].chunkId == y else ys[i - |xs|].chunkId == y;
    }
  }

  /** A chunk ranked above another in every list that has the other comes before it in the result. */
  lemma DominantComesFirst(arms: seq<Arm>, i: nat, j: nat)
    requires i < |FuseSpec(arms)| && j < |FuseSpec(arms)|
    requires forall arm | arm in arms ::
      arm.weight > 0.0 && NoRepeats(arm.hits) && Beats(arm, FuseSpec(arms)[i].chunkId, FuseSpec(arms)[j].chunkId)
    ensures i < j
  {
    hide FuseSpec, Score, Visited;
    var out := FuseSpec(arms);
    var x, y := out[i].chunkId, out[j].chunkId;
    assert Descending(ScoreOf, out) by {
      ResultDescends(arms);
    }
    ScoresInResult(arms, i);
    ScoresInResult(arms, j);
    ScoreBeats(arms, x, y);
    assert ScoreOf(out[i]) > ScoreOf(out[j]);
  }

  lemma ResultDescends(arms: seq<Arm>)
    ensures Descending(ScoreOf, FuseSpec(arms))
    ensures multiset(FuseSpec(arms)) == multiset(FusedHits(arms))
  {
    SortDescSorts(ScoreOf, FusedHits(arms));
  }

  /** Every hit of the result was visited, and carries the declared score. */
  lemma ScoresInResult(arms: seq<Arm>, i: nat)
    requires i < |FuseSpec(arms)|
    ensures var h := FuseSpec(arms)[i];
      h.score == Score(arms, h.chunkId) && Mentions(Visited(arms), h.chunkId)
  {
    hide FusedHits, Score, Visited;
    var hits, out := FusedHits(arms), FuseSpec(arms);
    SortDescSorts(ScoreOf, hits);
    assert out[i] in multiset(out);
    assert out[i] in hits;
    var k :| 0 <= k < |hits| && hits[k] == out[i];
    ScoresUnsorted(arms, k);
  }

  lemma ScoresUnsorted(arms: seq<Arm>, k: nat)
    requires k < |FusedHits(arms)|
    ensures var h := FusedHits(arms)[k];
      h.score == Score(arms, h.chunkId) && Mentions(Visited(arms), h.chunkId)
  {
    hide FirstSeen, Score;
    var v := Visited(arms);
    var first := FirstSeen(v)[k];
    FirstSeenIs(v);
    assert first in FirstSeen(v);
    assert first in v;
    var m :| 0 <= m < |v| && v[m] == first;
    assert v[m].chunkId == FusedHits(arms)[k].chunkId;
  }
}
