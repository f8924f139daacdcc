/** The guard between the model's token stream and the client. */
module TokenGuards {
  import opened Text

  const WHITESPACE_RUNAWAY_LIMIT := 200
  const TRUNCATION_NOTICE := "\n\n_[response truncated: repeated whitespace]_"

  /** How many white space characters `s` ends with. */
  function WsRun(s: string): nat {
    if s == "" || !PySpace(s[|s| - 1]) then 0 else 1 + WsRun(s[..|s| - 1])
  }

  /** It ends with exactly that many: they are white space, and the character before them, if any, is not. */
  lemma {:induction false} WsRunIs(s: string)
    ensures WsRun(s) <= |s|
    ensures forall i | |s| - WsRun(s) <= i < |s| :: PySpace(s[i])
    ensures WsRun(s) < |s| ==> !PySpace(s[|s| - WsRun(s) - 1])
  {
    hide PySpace;
    if s != "" && PySpace(s[|s| - 1]) {
      WsRunIs(s[..|s| - 1]);
    }
  }

  /** The white space run that ends with character `n - 1` is the first to reach the limit. */
  ghost predicate TripsAt(limit: int, s: string, n: nat) {
    && 0 < n <= |s| && WsRun(s[..n]) >= limit
    && forall m | 0 < m < n :: WsRun(s[..m]) < limit
  }

  ghost predicate NeverTrips(limit: int, s: string) {
    forall m | 0 < m <= |s| :: WsRun(s[..m]) < limit
  }

  /** Where the current, unfinished line of `s` begins. */
  function LineStart(s: string): (k: nat)
    ensures k <= |s|
    ensures '\n' !in s[k..] && (k == 0 || s[k - 1] == '\n')
  {
    if s == "" || s[|s| - 1] == '\n' then |s|
    else
      var k := LineStart(s[..|s| - 1]);
      assert s[k..] == s[..|s| - 1][k..] + [s[|s| - 1]];
      k
  }

  predicate NotBar(c: char) {
    c != '|'
  }

  /** Everything before the first '|' of the current line. */
  function ReleasedLen(s: string): (k: nat)
    ensures k <= |s|
  {
    LineStart(s) + Run(NotBar, s[LineStart(s)..])
  }

  function Released(s: string): string {
    s[..ReleasedLen(s)]
  }

  function Held(s: string): string {
    s[ReleasedLen(s)..]
  }

  /** What the client has seen once the stream is over. */
  ghost function Delivered(limit: int, s: string): string {
    if n: nat :| TripsAt(limit, s, n) then s[..n] + TRUNCATION_NOTICE else s
  }

  lemma TripIsUnique(limit: int, s: string, m: nat, n: nat)
    requires TripsAt(limit, s, m) && TripsAt(limit, s, n)
    ensures m == n
  {
  }

  lemma TripPersists(limit: int, s: string, t: string, n: nat)
    requires TripsAt(limit, s, n)
    ensures TripsAt(limit, s + t, n)
  {
    forall m | 0 < m <= n
      ensures (s + t)[..m] == s[..m]
    {
    }
  }

  lemma DeliveredTripped(limit: int, s: string, n: nat)
    requires TripsAt(limit, s, n)
    ensures Delivered(limit, s) == s[..n] + TRUNCATION_NOTICE
  {
    var m: nat :| TripsAt(limit, s, m) && Delivered(limit, s) == s[..m] + TRUNCATION_NOTICE;
    TripIsUnique(limit, s, m, n);
  }

  lemma DeliveredWhole(limit: int, s: string)
    requires NeverTrips(limit, s)
    ensures Delivered(limit, s) == s
  {
  }

  /** One more character: either it completes the first long run, or there is still none. */
  lemma TripSnoc(limit: int, s: string, c: char)
    requires NeverTrips(limit, s)
    ensures if WsRun(s + [c]) >= limit then TripsAt(limit, s + [c], |s| + 1) else NeverTrips(limit, s + [c])
  {
    hide WsRun;
    var t := s + [c];
    assert t[..|t|] == t;
    forall m | 0 < m <= |s|
      ensures WsRun(t[..m]) < limit
    {
      assert t[..m] == s[..m];
    }
  }

  lemma WsRunSnoc(s: string, c: char)
    ensures WsRun(s + [c]) == if PySpace(c) then WsRun(s) + 1 else 0
  {
    assert (s + [c])[..|s|] == s;
  }

  lemma LineStartSnoc(s: string, c: char)
    ensures LineStart(s + [c]) == if c == '\n' then |s| + 1 else LineStart(s)
  {
    assert (s + [c])[..|s|] == s;
  }

  lemma HeldIsRow(s: string)
    ensures Held(s) != "" ==> Held(s)[0] == '|'
    ensures Released(s) + Held(s) == s
  {
    hide LineStart, Run;
    var k := LineStart(s);
    assert Held(s) != "" ==> Held(s)[0] == s[k..][Run(NotBar, s[k..])];
  }

  lemma ReleasedLenSnoc(s: string, c: char)
    ensures ReleasedLen(s + [c]) ==
      if c != '\n' && (ReleasedLen(s) < |s| || c == '|') then ReleasedLen(s) else |s| + 1
  {
    hide LineStart, Run;
    var t := s + [c];
    var k := LineStart(s);
    var b := Run(NotBar, s[k..]);
    LineStartSnoc(s, c);
    if c == '\n' {
      RunIs(NotBar, t[|t|..], 0);
    } else {
      assert t[k..] == s[k..] + [c];
      RunIs(NotBar, t[k..], if b < |s[k..]| || c == '|' then b else b + 1);
    }
  }

  /** A character is held back when the line already has a '|', or is one. */
  lemma HeldSnoc(s: string, c: char)
    ensures Held(s + [c]) == if c != '\n' && (Held(s) != "" || c == '|') then Held(s) + [c] else ""
    ensures Released(s + [c]) == if Held(s + [c]) == "" then s + [c] else Released(s)
  {
    hide ReleasedLen;
    ReleasedLenSnoc(s, c);
    var k := ReleasedLen(s + [c]);
    if k == |s| + 1 {
      assert (s + [c])[..k] == s + [c];
    } else {
      assert (s + [c])[k..] == s[k..] + [c];
      assert (s + [c])[..k] == s[..k];
    }
  }

  /**
   A guard that has not tripped on `fed`: the client has everything up to the first '|' of the
   current line, and the rest is pending.
   */
  ghost predicate Holding(limit: int, fed: string, pending: string, wsRun: int, emitted: string) {
    NeverTrips(limit, fed) && wsRun == WsRun(fed) && pending == Held(fed) && emitted == Released(fed)
  }

  /** A guard that tripped: the client has the text up to that point, the notice, and nothing more. */
  ghost predicate Truncated(limit: int, fed: string, emitted: string) {
    exists n: nat :: TripsAt(limit, fed, n) && emitted == fed[..n] + TRUNCATION_NOTICE
  }

  lemma TruncatedPersists(limit: int, fed: string, emitted: string, rest: string)
    requires Truncated(limit, fed, emitted)
    ensures Truncated(limit, fed + rest, emitted)
  {
    hide WsRun;
    var n: nat :| TripsAt(limit, fed, n) && emitted == fed[..n] + TRUNCATION_NOTICE;
    TripPersists(limit, fed, rest, n);
    assert (fed + rest)[..n] == fed[..n];
  }

  /** What one more character does to a guard that has not tripped. */
  lemma HoldingNext(limit: int, fed: string, pending: string, wsRun: int, emitted: string, c: char)
    requires Holding(limit, fed, pending, wsRun, emitted)
    ensures pending != "" ==> pending[0] == '|'
    ensures
      var now, p, w := fed + [c], pending + [c], if PySpace(c) then wsRun + 1 else 0;
      if w >= limit then Truncated(limit, now, emitted + (p + TRUNCATION_NOTICE))
      else if c == '\n' || p[0] != '|' then Holding(limit, now, "", w, emitted + p)
      else Holding(limit, now, p, w, emitted)
  {
    hide PySpace, WsRun, Held, Released, NeverTrips, TripsAt;
    var now, p, w := fed + [c], pending + [c], if PySpace(c) then wsRun + 1 else 0;
    HeldIsRow(fed);
    HeldSnoc(fed, c);
    WsRunSnoc(fed, c);
    TripSnoc(limit, fed, c);
    assert emitted + p == now;
    if w >= limit {
      assert now[..|now|] == now;
      assert emitted + (p + TRUNCATION_NOTICE) == now[..|now|] + TRUNCATION_NOTICE;
      assert TripsAt(limit, now, |now|);
    }
  }

  /** `str.lstrip`. */
  function LStrip(s: string): string {
    s[Run(PySpace, s)..]
  }

  class TokenGuard {
    const whitespaceLimit: int
    var pending: string
    var wsRun: int
    var done: bool

    /** All text fed so far, and all text handed back. */
    ghost var fed: string
    ghost var emitted: string
    ghost var flushed: bool

    ghost predicate Valid()
      reads this
    {
      if done then pending == "" && Truncated(whitespaceLimit, fed, emitted)
      else if flushed then pending == "" && NeverTrips(whitespaceLimit, fed) && emitted == fed
      else Holding(whitespaceLimit, fed, pending, wsRun, emitted)
    }

    constructor (whitespaceLimit: int := WHITESPACE_RUNAWAY_LIMIT)
      ensures Valid() && !flushed && !done
      ensures fed == "" && emitted == "" && this.whitespaceLimit == whitespaceLimit
    {
      this.whitespaceLimit := whitespaceLimit;
      pending, wsRun, done := "", 0, false;
      fed, emitted, flushed := "", "", false;
      new;
      HeldIsRow("");
    }

    /** The body of the loop in `feed`: one character. */
    method Next(ch: char) returns (out: string)
      requires Valid() && !done && !flushed
      modifies this
      ensures Valid() && !flushed
      ensures fed == old(fed) + [ch]
      ensures emitted == old(emitted) + out
    {
      hide Holding, Truncated, PySpace;
      HoldingNext(whitespaceLimit, fed, pending, wsRun, emitted, ch);
      fed := fed + [ch];
      out := "";
      pending := pending + [ch];
      wsRun := if PySpace(ch) then wsRun + 1 else 0;
      if wsRun >= whitespaceLimit {
        out := pending + TRUNCATION_NOTICE;
        pending := "";
        done := true;
      } else {
        LStripPending(pending);
        if ch == '\n' || !(LStrip(pending) != "" && LStrip(pending)[0] == '|') {
          out := pending;
          pending := "";
        }
      }
      assert emitted + "" == emitted;
      emitted := emitted + out;
    }

    method Feed(token: string) returns (out: string)
      requires Valid() && !flushed
      modifies this
      ensures Valid() && !flushed
      ensures fed == old(fed) + token
      ensures emitted == old(emitted) + out
      ensures old(done) ==> done && out == ""
    {
      hide Holding, Truncated;
      out := "";
      ghost var rest := token;
      if !(done || token == "") {
        for i := 0 to |token|
          invariant !done && !flushed && Valid()
          invariant fed == old(fed) + token[..i]
          invariant emitted == old(emitted) + out
        {
          var piece := Next(token[i]);
          out := out + piece;
          rest := token[i + 1..];
          assert token[..i + 1] == token[..i] + [token[i]];
          if done {
            break;
          }
        }
      }
      if done {
        TruncatedPersists(whitespaceLimit, fed, emitted, rest);
        fed := fed + rest;
      }
      assert token[..|token|] == token && old(fed) + "" == old(fed);
    }

    /** Called once the source stream ends: hands back the row still held. */
    method Flush() returns (rem: string)
      requires Valid()
      modifies this
      ensures Valid() && flushed && pending == ""
      ensures fed == old(fed) && done == old(done)
      ensures rem == old(pending)
      ensures emitted == old(emitted) + rem == Delivered(whitespaceLimit, fed)
    {
      HeldIsRow(fed);
      rem := pending;
      pending := "";
      emitted := emitted + rem;
      flushed := true;
      if done {
        ghost var n: nat :| TripsAt(whitespaceLimit, fed, n) && emitted == fed[..n] + TRUNCATION_NOTICE;
        DeliveredTripped(whitespaceLimit, fed, n);
      } else {
        DeliveredWhole(whitespaceLimit, fed);
      }
    }
  }

  lemma LStripPending(pending: string)
    requires pending != ""
    requires |pending| == 1 || pending[0] == '|'
    ensures LStrip(pending) != "" && LStrip(pending)[0] == '|' <==> pending[0] == '|'
  {
    RunIs(PySpace, pending, if PySpace(pending[0]) then 1 else 0);
  }
}
