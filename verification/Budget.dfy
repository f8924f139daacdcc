/** The daily spend caps: a check before spending, with requests in flight that were checked earlier. */
module Budget {
  import opened Text

  /** `settings` and the per-user overrides. */
  datatype Limits = Limits(dailyCap: real, userCap: real, hardMultiplier: real, overrides: map<nat, real>)
  {
    function CapOf(user: nat): real {
      if user in overrides then overrides[user] else userCap
    }

    /** Where the gate stops admitting. */
    function HardCap(scope: Scope): real {
      match scope
      case Everyone => dailyCap
      case OneUser(u) => CapOf(u) * hardMultiplier
    }
  }

  /** Whose spending a total counts. */
  datatype Scope = Everyone | OneUser(user: nat)

  /** A usage row of the current day; `gated` ones were spent by an admitted request. */
  datatype Usage = Usage(user: Option<nat>, cost: real, gated: bool)

  datatype Verdict = Blocked | Admitted(warning: bool)

  datatype Decision = Ok | Warn | Block

  predicate InScope(scope: Scope, user: Option<nat>) {
    scope.Everyone? || user == Some(scope.user)
  }

  /** `today_cost_usd` and `today_user_cost_usd`. */
  function Spent(rows: seq<Usage>, scope: Scope): real {
    if rows == [] then 0.0
    else
      var row := rows[|rows| - 1];
      Spent(rows[..|rows| - 1], scope) + if InScope(scope, row.user) then row.cost else 0.0
  }

  function GatedSpent(rows: seq<Usage>, scope: Scope): real {
    if rows == [] then 0.0
    else
      var row := rows[|rows| - 1];
      GatedSpent(rows[..|rows| - 1], scope) + if row.gated && InScope(scope, row.user) then row.cost else 0.0
  }

  predicate OverDailyCap(total: real, cap: real) {
    total >= cap
  }

  function BudgetDecision(spent: real, cap: real, hardMultiplier: real): Decision {
    if spent >= cap * hardMultiplier then Block else if spent >= cap then Warn else Ok
  }

  /** The gate in front of every request that spends: the install's cap, then the user's. */
  function CheckDailyCap(rows: seq<Usage>, user: Option<nat>, limits: Limits): Verdict {
    if OverDailyCap(Spent(rows, Everyone), limits.dailyCap) then Blocked
    else if user.None? then Admitted(false)
    else
      match BudgetDecision(Spent(rows, OneUser(user.value)), limits.CapOf(user.value), limits.hardMultiplier)
      case Block => Blocked
      case Warn => Admitted(true)
      case Ok => Admitted(false)
  }

  // ---------------------------------------------------------------- requests in flight

  /** An admitted request and what it may still cost. */
  datatype Request = Request(user: Option<nat>, left: real)

  datatype State = State(rows: seq<Usage>, inFlight: seq<Request>)

  datatype Action =
    | Admit(user: Option<nat>)
    | Charge(i: nat, amount: real)
    | Complete(i: nat)
    | OtherUsage(row: Usage)
    | Midnight

  /** At most `k` gated requests run at once, each costing at most `most`; charges come in parts. */
  predicate Enabled(s: State, a: Action, limits: Limits, k: nat, most: real) {
    match a
    case Admit(user) => |s.inFlight| < k && CheckDailyCap(s.rows, user, limits).Admitted?
    case Charge(i, amount) => i < |s.inFlight| && 0.0 <= amount <= s.inFlight[i].left
    case Complete(i) => i < |s.inFlight|
    case OtherUsage(row) => !row.gated && row.cost >= 0.0
    case Midnight => true
  }

  function After(s: State, a: Action, most: real): State
    requires a.Charge? || a.Complete? ==> a.i < |s.inFlight|
  {
    match a
    case Admit(user) => s.(inFlight := s.inFlight + [Request(user, most)])
    case Charge(i, amount) =>
      var r := s.inFlight[i];
      State(s.rows + [Usage(r.user, amount, true)], s.inFlight[i := r.(left := r.left - amount)])
    case Complete(i) => s.(inFlight := s.inFlight[..i] + s.inFlight[i + 1..])
    case OtherUsage(row) => s.(rows := s.rows + [row])
    case Midnight => s.(rows := [])
  }

  /** What the requests in flight may still spend. */
  function Left(requests: seq<Request>, scope: Scope): real {
    if requests == [] then 0.0
    else
      var r := requests[|requests| - 1];
      Left(requests[..|requests| - 1], scope) + if InScope(scope, r.user) then r.left else 0.0
  }

  ghost predicate Bounded(requests: seq<Request>, most: real) {
    forall i | 0 <= i < |requests| :: 0.0 <= requests[i].left <= most
  }

  ghost predicate Costs(rows: seq<Usage>) {
    forall i | 0 <= i < |rows| :: rows[i].cost >= 0.0
  }

  /** What `n` requests cost at `most` each. */
  function CostOf(n: nat, most: real): real {
    if n == 0 then 0.0 else CostOf(n - 1, most) + most
  }

  lemma {:induction false} CostIs(n: nat, most: real)
    ensures CostOf(n, most) == n as real * most
  {
    if n > 0 {
      CostIs(n - 1, most);
    }
  }

  lemma {:induction false} MoreCostMore(n: nat, k: nat, most: real)
    requires n <= k && most >= 0.0
    ensures CostOf(n, most) <= CostOf(k, most)
    decreases k
  {
    if n < k {
      MoreCostMore(n, k - 1, most);
    }
  }

  /** Spent plus still spendable stays below the cap plus `k` requests' worth. */
  ghost predicate WithinBound(s: State, scope: Scope, limits: Limits, k: nat, most: real) {
    GatedSpent(s.rows, scope) + Left(s.inFlight, scope) < limits.HardCap(scope) + CostOf(k, most)
  }

  ghost predicate Inv(s: State, limits: Limits, k: nat, most: real) {
    && |s.inFlight| <= k && Bounded(s.inFlight, most) && Costs(s.rows)
    && forall scope: Scope | limits.HardCap(scope) > 0.0 :: WithinBound(s, scope, limits, k, most)
  }

  lemma {:induction false} GatedIsPart(rows: seq<Usage>, scope: Scope)
    requires Costs(rows)
    ensures 0.0 <= GatedSpent(rows, scope) <= Spent(rows, scope)
  {
    if rows != [] {
      GatedIsPart(rows[..|rows| - 1], scope);
    }
  }

  lemma {:induction false} LeftAtMost(requests: seq<Request>, scope: Scope, most: real)
    requires Bounded(requests, most) && most >= 0.0
    ensures 0.0 <= Left(requests, scope) <= CostOf(|requests|, most)
  {
    if requests != [] {
      LeftAtMost(requests[..|requests| - 1], scope, most);
    }
  }

  lemma {:induction false} LeftUpdate(requests: seq<Request>, i: nat, r: Request, scope: Scope)
    requires i < |requests| && r.user == requests[i].user
    ensures Left(requests[i := r], scope) ==
      Left(requests, scope) + if InScope(scope, r.user) then r.left - requests[i].left else 0.0
  {
    var n := |requests| - 1;
    if i == n {
      assert requests[i := r][..n] == requests[..n];
    } else {
      assert requests[i := r][..n] == requests[..n][i := r];
      LeftUpdate(requests[..n], i, r, scope);
    }
  }

  lemma {:induction false} LeftRemove(requests: seq<Request>, i: nat, scope: Scope)
    requires i < |requests|
    ensures Left(requests[..i] + requests[i + 1..], scope) ==
      Left(requests, scope) - if InScope(scope, requests[i].user) then requests[i].left else 0.0
  {
    var n := |requests| - 1;
    var rest := requests[..i] + requests[i + 1..];
    if i == n {
      assert rest == requests[..n];
    } else {
      assert rest[..|rest| - 1] == requests[..n][..i] + requests[..n][i + 1..];
      LeftRemove(requests[..n], i, scope);
    }
  }

  /** What the totals add up: a row counts for the install, and for its user. */
  lemma SpentSnoc(rows: seq<Usage>, row: Usage, u: nat)
    ensures Spent([], Everyone) == 0.0 == Spent([], OneUser(u))
    ensures Spent(rows + [row], Everyone) == Spent(rows, Everyone) + row.cost
    ensures Spent(rows + [row], OneUser(u)) == Spent(rows, OneUser(u)) + if row.user == Some(u) then row.cost else 0.0
    ensures GatedSpent([], Everyone) == 0.0 == GatedSpent([], OneUser(u))
    ensures GatedSpent(rows + [row], Everyone) == GatedSpent(rows, Everyone) + if row.gated then row.cost else 0.0
    ensures GatedSpent(rows + [row], OneUser(u)) ==
      GatedSpent(rows, OneUser(u)) + if row.gated && row.user == Some(u) then row.cost else 0.0
  {
    assert (rows + [row])[..|rows|] == rows;
  }

  /** What an action does to a total: a charge and other usage add their cost where it counts, midnight starts again at 0. */
  lemma SpendingMoves(s: State, a: Action, scope: Scope, limits: Limits, k: nat, most: real)
    requires Enabled(s, a, limits, k, most)
    ensures var before, now := Spent(s.rows, scope), Spent(After(s, a, most).rows, scope);
      match a
      case Charge(i, amount) => now == before + if scope.Everyone? || s.inFlight[i].user == Some(scope.user) then amount else 0.0
      case OtherUsage(row) => now == before + if scope.Everyone? || row.user == Some(scope.user) then row.cost else 0.0
      case Midnight => now == 0.0
      case _ => now == before
  {
    var user := match scope case OneUser(u) => u case Everyone => 0;
    match a
    case Charge(i, amount) => SpentSnoc(s.rows, Usage(s.inFlight[i].user, amount, true), user);
    case OtherUsage(row) => SpentSnoc(s.rows, row, user);
    case _ => SpentSnoc(s.rows, Usage(None, 0.0, false), user);
  }

  /**
   The gate, outright: the install's total is below its cap, and the total of the user, if there is
   one, below the user's cap times the multiplier; that cap is the user's override when there is one
   and the common one otherwise. The warning says that the user has reached the cap itself.
   */
  lemma GateIs(rows: seq<Usage>, user: Option<nat>, limits: Limits)
    ensures
      var cap := if user.Some? && user.value in limits.overrides then limits.overrides[user.value] else limits.userCap;
      CheckDailyCap(rows, user, limits) ==
        if Spent(rows, Everyone) >= limits.dailyCap then Blocked
        else if user.None? then Admitted(false)
        else if Spent(rows, OneUser(user.value)) >= cap * limits.hardMultiplier then Blocked
        else Admitted(Spent(rows, OneUser(user.value)) >= cap)
  {
    hide Spent;
  }

  lemma LeftWithin(requests: seq<Request>, scope: Scope, k: nat, most: real)
    requires Bounded(requests, most) && most >= 0.0 && |requests| <= k
    ensures Left(requests, scope) <= CostOf(k, most)
  {
    LeftAtMost(requests, scope, most);
    MoreCostMore(|requests|, k, most);
  }

  /**
   The gate admits exactly when every scope the request counts in is below its hard cap, and warns
   exactly when the user has reached their own cap besides.
   */
  lemma AdmittedIff(rows: seq<Usage>, user: Option<nat>, limits: Limits)
    ensures CheckDailyCap(rows, user, limits).Admitted? <==>
      forall scope | InScope(scope, user) :: Spent(rows, scope) < limits.HardCap(scope)
    ensures CheckDailyCap(rows, user, limits) == Admitted(true) <==>
      && CheckDailyCap(rows, user, limits).Admitted?
      && user.Some? && Spent(rows, OneUser(user.value)) >= limits.CapOf(user.value)
  {
    hide Spent;
    assert InScope(Everyone, user);
    if user.Some? {
      assert InScope(OneUser(user.value), user);
    }
  }

  lemma AdmitHolds(s: State, user: Option<nat>, scope: Scope, limits: Limits, k: nat, most: real)
    requires most >= 0.0 && Inv(s, limits, k, most) && limits.HardCap(scope) > 0.0
    requires Enabled(s, Admit(user), limits, k, most)
    ensures WithinBound(After(s, Admit(user), most), scope, limits, k, most)
  {
    hide CheckDailyCap, InScope, Left, GatedSpent, Spent, Limits.HardCap;
    var more := s.inFlight + [Request(user, most)];
    if InScope(scope, user) {
      assert GatedSpent(s.rows, scope) < limits.HardCap(scope) by {
        AdmittedIff(s.rows, user, limits);
        GatedIsPart(s.rows, scope);
      }
      LeftWithin(more, scope, k, most);
    } else {
      assert WithinBound(s, scope, limits, k, most);
      LeftOfOther(s.inFlight, Request(user, most), scope);
    }
  }

  lemma LeftOfOther(requests: seq<Request>, r: Request, scope: Scope)
    requires !InScope(scope, r.user)
    ensures Left(requests + [r], scope) == Left(requests, scope)
  {
    assert (requests + [r])[..|requests|] == requests;
  }

  lemma GatedSnoc(rows: seq<Usage>, row: Usage, scope: Scope)
    ensures GatedSpent(rows + [row], scope) == GatedSpent(rows, scope) + if row.gated && InScope(scope, row.user) then row.cost else 0.0
  {
    assert (rows + [row])[..|rows|] == rows;
  }

  /** One scope's bound through one action. */
  lemma BoundHolds(s: State, a: Action, scope: Scope, limits: Limits, k: nat, most: real)
    requires most >= 0.0 && Inv(s, limits, k, most) && Enabled(s, a, limits, k, most) && limits.HardCap(scope) > 0.0
    ensures WithinBound(After(s, a, most), scope, limits, k, most)
  {
    hide CheckDailyCap, InScope, GatedSpent, Left, Spent, Limits.HardCap;
    assert WithinBound(s, scope, limits, k, most);
    match a {
      case Admit(user) => AdmitHolds(s, user, scope, limits, k, most);
      case Charge(i, amount) =>
        var r := s.inFlight[i];
        GatedSnoc(s.rows, Usage(r.user, amount, true), scope);
        LeftUpdate(s.inFlight, i, r.(left := r.left - amount), scope);
      case Complete(i) => LeftRemove(s.inFlight, i, scope);
      case OtherUsage(row) => GatedSnoc(s.rows, row, scope);
      case Midnight =>
        NothingSpent(scope);
        LeftWithin(s.inFlight, scope, k, most);
    }
  }

  lemma NothingSpent(scope: Scope)
    ensures GatedSpent([], scope) == 0.0
  {
  }

  lemma InvHolds(s: State, a: Action, limits: Limits, k: nat, most: real)
    requires most >= 0.0 && Inv(s, limits, k, most) && Enabled(s, a, limits, k, most)
    ensures Inv(After(s, a, most), limits, k, most)
  {
    hide CheckDailyCap, WithinBound;
    var s' := After(s, a, most);
    forall scope: Scope | limits.HardCap(scope) > 0.0
      ensures WithinBound(s', scope, limits, k, most)
    {
      BoundHolds(s, a, scope, limits, k, most);
    }
  }

  ghost predicate Behaviour(states: seq<State>, actions: seq<Action>, limits: Limits, k: nat, most: real) {
    && |states| == |actions| + 1
    && forall j | 0 <= j < |actions| ::
         Enabled(states[j], actions[j], limits, k, most) && states[j + 1] == After(states[j], actions[j], most)
  }

  lemma {:induction false} InvAlways(states: seq<State>, actions: seq<Action>, limits: Limits, k: nat, most: real, j: nat)
    requires most >= 0.0 && Behaviour(states, actions, limits, k, most) && j < |states|
    requires states[0] == State([], [])
    ensures Inv(states[j], limits, k, most)
  {
    hide CheckDailyCap, WithinBound;
    if j == 0 {
      StartsWithin(limits, k, most);
    } else {
      InvAlways(states, actions, limits, k, most, j - 1);
      InvHolds(states[j - 1], actions[j - 1], limits, k, most);
    }
  }

  lemma StartsWithin(limits: Limits, k: nat, most: real)
    requires most >= 0.0
    ensures Inv(State([], []), limits, k, most)
  {
    MoreCostMore(0, k, most);
  }

  /**
   In every interleaving of admissions, partial charges, completions, other usage and midnights,
   a day's gated spending stays below the hard cap plus `k` requests' cost: for the install, and for
   every user with a positive cap.
   */
  lemma OvershootBound(states: seq<State>, actions: seq<Action>, limits: Limits, k: nat, most: real, j: nat, scope: Scope)
    requires most >= 0.0 && Behaviour(states, actions, limits, k, most) && j < |states|
    requires states[0] == State([], []) && limits.HardCap(scope) > 0.0
    ensures GatedSpent(states[j].rows, scope) < limits.HardCap(scope) + k as real * most
  {
    hide CheckDailyCap;
    InvAlways(states, actions, limits, k, most, j);
    assert WithinBound(states[j], scope, limits, k, most);
    LeftAtMost(states[j].inFlight, scope, most);
    CostIs(k, most);
  }

  // ---------------------------------------------------------------- the bound is reached

  /** Replays actions; None when one is not enabled. */
  function Replay(s: State, actions: seq<Action>, limits: Limits, k: nat, most: real): Option<State>
    decreases |actions|
  {
    if actions == [] then Some(s)
    else if Enabled(s, actions[0], limits, k, most) then Replay(After(s, actions[0], most), actions[1..], limits, k, most)
    else None
  }

  function Repeat<T>(x: T, n: nat): seq<T> {
    if n == 0 then [] else [x] + Repeat(x, n - 1)
  }

  lemma {:induction false} ReplayAppend(s: State, xs: seq<Action>, ys: seq<Action>, limits: Limits, k: nat, most: real)
    requires Replay(s, xs, limits, k, most).Some?
    ensures Replay(s, xs + ys, limits, k, most) == Replay(Replay(s, xs, limits, k, most).value, ys, limits, k, most)
    decreases |xs|
  {
    if xs == [] {
      assert xs + ys == ys;
    } else {
      assert (xs + ys)[1..] == xs[1..] + ys;
      ReplayAppend(After(s, xs[0], most), xs[1..], ys, limits, k, most);
    }
  }

  /** While nothing is charged, the gate goes on admitting. */
  lemma {:induction false} AdmitMany(s: State, n: nat, limits: Limits, k: nat, most: real)
    requires |s.inFlight| + n <= k && Spent(s.rows, Everyone) < limits.dailyCap
    ensures Replay(s, Repeat(Admit(None), n), limits, k, most)
      == Some(s.(inFlight := s.inFlight + Repeat(Request(None, most), n)))
    decreases n
  {
    hide Spent;
    if n > 0 {
      var s' := s.(inFlight := s.inFlight + [Request(None, most)]);
      assert Repeat(Admit(None), n)[1..] == Repeat(Admit(None), n - 1);
      AdmitMany(s', n - 1, limits, k, most);
      assert s.inFlight + Repeat(Request(None, most), n) == s'.inFlight + Repeat(Request(None, most), n - 1);
    } else {
      assert s.inFlight + [] == s.inFlight;
    }
  }

  /** Every request in flight spends all it may and completes. */
  lemma {:induction false} ChargeMany(s: State, n: nat, limits: Limits, k: nat, most: real) returns (actions: seq<Action>, end: State)
    requires most >= 0.0 && s.inFlight == Repeat(Request(None, most), n)
    ensures Replay(s, actions, limits, k, most) == Some(end)
    ensures GatedSpent(end.rows, Everyone) == GatedSpent(s.rows, Everyone) + CostOf(n, most)
    decreases n
  {
    actions, end := [], s;
    if n > 0 {
      var next := OneCharged(s, n, limits, k, most);
      hide Replay, GatedSpent, Repeat;
      var rest;
      rest, end := ChargeMany(next, n - 1, limits, k, most);
      actions := [Charge(0, most), Complete(0)] + rest;
      TwoSteps(s, rest, limits, k, most);
    }
  }

  /** The first request in flight spends all it may and completes. */
  lemma OneCharged(s: State, n: nat, limits: Limits, k: nat, most: real) returns (next: State)
    requires most >= 0.0 && n > 0 && s.inFlight == Repeat(Request(None, most), n)
    ensures |s.inFlight| > 0 && s.inFlight[0] == Request(None, most)
    ensures next == After(After(s, Charge(0, most), most), Complete(0), most)
    ensures next.inFlight == Repeat(Request(None, most), n - 1)
    ensures GatedSpent(next.rows, Everyone) == GatedSpent(s.rows, Everyone) + most
  {
    hide GatedSpent;
    next := After(After(s, Charge(0, most), most), Complete(0), most);
    GatedSnoc(s.rows, Usage(None, most, true), Everyone);
    assert next.inFlight == Repeat(Request(None, most), n - 1);
  }

  lemma TwoSteps(s: State, rest: seq<Action>, limits: Limits, k: nat, most: real)
    requires most >= 0.0 && |s.inFlight| > 0 && s.inFlight[0] == Request(None, most)
    ensures Replay(s, [Charge(0, most), Complete(0)] + rest, limits, k, most)
      == Replay(After(After(s, Charge(0, most), most), Complete(0), most), rest, limits, k, most)
  {
    hide CheckDailyCap;
    var one := [Complete(0)] + rest;
    assert ([Charge(0, most), Complete(0)] + rest)[1..] == one && one[1..] == rest;
  }

  /** From any spending below the cap, `k` requests checked before any of them is charged overshoot by all they cost. */
  lemma OvershootIsReached(s: State, limits: Limits, k: nat, most: real) returns (actions: seq<Action>, end: State)
    requires most >= 0.0 && s.inFlight == [] && Spent(s.rows, Everyone) < limits.dailyCap
    ensures Replay(s, actions, limits, k, most) == Some(end)
    ensures GatedSpent(end.rows, Everyone) == GatedSpent(s.rows, Everyone) + k as real * most
  {
    hide Replay, Spent, GatedSpent;
    AdmitMany(s, k, limits, k, most);
    var full := s.(inFlight := s.inFlight + Repeat(Request(None, most), k));
    assert full.inFlight == Repeat(Request(None, most), k);
    actions, end := ChargeMany(full, k, limits, k, most);
    ReplayAppend(s, Repeat(Admit(None), k), actions, limits, k, most);
    actions := Repeat(Admit(None), k) + actions;
    CostIs(k, most);
  }
}
