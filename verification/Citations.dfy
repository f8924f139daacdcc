/**
 Citation markers: the server's four rewriting passes, the client's single
 splitting pass, and extraction of the cited indices.
 */
module Citations {
  import opened Text

  /** Whose white space, digits and letters a pattern uses. `Either` accepts both languages' classes. */
  datatype Engine = Python | JavaScript | Either

  /** The shapes a marker can take: (S1), [s1], [source 1], [1]; `Canonical` is [S1], case-sensitive. */
  datatype Form = Paren | Bare | Word | Number | Canonical

  const DEVIATIONS: set<Form> := {Paren, Bare, Word, Number}

  function SpaceOf(e: Engine): char -> bool {
    match e
    case Python => PySpace
    case JavaScript => JsSpace
    case Either => c => PySpace(c) || JsSpace(c)
  }

  function DigitOf(e: Engine): char -> bool {
    if e == JavaScript then Digit else PyDigit
  }

  const LONG_S := '\U{17F}'

  /** The letter s, ignoring case. For Python the long s is one more of its forms. */
  predicate LetterS(e: Engine, c: char) {
    c == 's' || c == 'S' || (e != JavaScript && c == LONG_S)
  }

  predicate Opener(c: char) {
    c == '(' || c == '['
  }

  predicate OpenerFree(s: string) {
    forall i | 0 <= i < |s| :: !Opener(s[i])
  }

  /** The empty string, or one that begins with an opening bracket. */
  predicate Bracketed(s: string) {
    s == "" || Opener(s[0])
  }

  predicate IgnoringCase(c: char, lower: char, upper: char) {
    c == lower || c == upper
  }

  /** The brackets, and the letters of the word other than its s. */
  predicate Fixed(c: char) {
    || Opener(c) || c == ')' || c == ']'
    || IgnoringCase(c, 'o', 'O') || IgnoringCase(c, 'u', 'U') || IgnoringCase(c, 'r', 'R')
    || IgnoringCase(c, 'c', 'C') || IgnoringCase(c, 'e', 'E')
  }

  predicate BracketSource(e: Engine, s: string) {
    && |s| >= 7 && s[0] == '['
    && LetterS(e, s[1]) && IgnoringCase(s[2], 'o', 'O') && IgnoringCase(s[3], 'u', 'U')
    && IgnoringCase(s[4], 'r', 'R') && IgnoringCase(s[5], 'c', 'C') && IgnoringCase(s[6], 'e', 'E')
  }

  /** The length of everything before the digits, or 0 when `s` does not begin like form `f`. */
  function HeadLen(e: Engine, f: Form, s: string): (n: nat)
    ensures n <= |s|
  {
    match f
    case Paren => if |s| >= 2 && s[0] == '(' && LetterS(e, s[1]) then 2 else 0
    case Bare => if |s| >= 2 && s[0] == '[' && LetterS(e, s[1]) then 2 else 0
    case Canonical => if |s| >= 2 && s[0] == '[' && s[1] == 'S' then 2 else 0
    case Number => if |s| >= 1 && s[0] == '[' then 1 else 0
    case Word =>
      if BracketSource(e, s) && Run(SpaceOf(e), s[7..]) > 0 then 7 + Run(SpaceOf(e), s[7..]) else 0
  }

  function Closer(f: Form): char {
    if f == Paren then ')' else ']'
  }

  /** The length of the marker of form `f` at the front of `s`, or 0. */
  function MatchLen(e: Engine, f: Form, s: string): (n: nat)
    ensures n <= |s|
  {
    var h := HeadLen(e, f, s);
    var d := Run(DigitOf(e), s[h..]);
    if h > 0 && d > 0 && h + d < |s| && s[h + d] == Closer(f) then h + d + 1 else 0
  }

  /** The digits of that marker. */
  function DigitsAt(e: Engine, f: Form, s: string): (d: string)
    requires MatchLen(e, f, s) > 0
    ensures d != "" && forall i | 0 <= i < |d| :: DigitOf(e)(d[i])
  {
    var h := HeadLen(e, f, s);
    s[h..][..Run(DigitOf(e), s[h..])]
  }

  /** Which of the forms in `fs` matches at the front of `s`. */
  function FormAt(e: Engine, fs: set<Form>, s: string): (r: Option<Form>)
    ensures r.Some? ==> r.value in fs && MatchLen(e, r.value, s) > 0
    ensures r.None? ==> forall f | f in fs :: MatchLen(e, f, s) == 0
  {
    hide MatchLen;
    if Paren in fs && MatchLen(e, Paren, s) > 0 then Some(Paren)
    else if Bare in fs && MatchLen(e, Bare, s) > 0 then Some(Bare)
    else if Word in fs && MatchLen(e, Word, s) > 0 then Some(Word)
    else if Number in fs && MatchLen(e, Number, s) > 0 then Some(Number)
    else if Canonical in fs && MatchLen(e, Canonical, s) > 0 then Some(Canonical)
    else None
  }

  function Canon(digits: string): string {
    "[S" + digits + "]"
  }

  /** `pattern.sub`: one left-to-right pass replacing every marker whose form is in `fs`. */
  function Rewrite(e: Engine, fs: set<Form>, s: string): string
    decreases |s|
  {
    if s == "" then ""
    else match FormAt(e, fs, s)
      case None => [s[0]] + Rewrite(e, fs, s[1..])
      case Some(f) => Canon(DigitsAt(e, f, s)) + Rewrite(e, fs, s[MatchLen(e, f, s)..])
  }

  /** `finditer`: the markers found by one left-to-right pass. */
  function Markers(e: Engine, fs: set<Form>, s: string): seq<string>
    decreases |s|
  {
    if s == "" then []
    else match FormAt(e, fs, s)
      case None => Markers(e, fs, s[1..])
      case Some(f) =>
        var n := MatchLen(e, f, s);
        [s[..n]] + Markers(e, fs, s[n..])
  }

  // ---------------------------------------------------------------- matching is local

  /** A digit is no white space, no letter of a marker and no bracket. */
  lemma DigitIsApart(e: Engine, c: char)
    requires DigitOf(e)(c)
    ensures !SpaceOf(e)(c) && !LetterS(e, c) && !Fixed(c)
  {
    hide LowZero, HighZero;
  }

  /** The part before the digits is decided by its own characters and the digit behind it. */
  lemma HeadExtends(e: Engine, f: Form, s: string, t: string)
    requires var h := HeadLen(e, f, s); 0 < h < |s| && h < |t| && DigitOf(e)(s[h]) && t[..h + 1] == s[..h + 1]
    ensures HeadLen(e, f, t) == HeadLen(e, f, s)
  {
    var h := HeadLen(e, f, s);
    assert forall i | 0 <= i <= h :: t[i] == t[..h + 1][i] == s[i];
    if f == Word {
      var p := SpaceOf(e);
      var w := Run(p, s[7..]);
      assert t[7..][w] == s[h];
      DigitIsApart(e, s[h]);
      assert forall i | 0 <= i < w :: t[7..][i] == s[7..][i];
      RunIs(p, t[7..], w);
    }
  }

  /** The parts of a match: the part before the digits, the digits, and the closing bracket. */
  lemma MatchParts(e: Engine, f: Form, s: string, h: nat, d: nat)
    requires 0 < h < |s| && 0 < d && h + d < |s|
    ensures HeadLen(e, f, s) == h && Run(DigitOf(e), s[h..]) == d && s[h + d] == Closer(f) ==>
      MatchLen(e, f, s) == h + d + 1 && DigitsAt(e, f, s) == s[h..][..d]
  {
    hide HeadLen, Run;
  }

  lemma CloserIsNoDigit(e: Engine, f: Form)
    ensures !DigitOf(e)(Closer(f))
  {
    hide LowZero, HighZero;
  }

  /** A marker that matches is decided by its own characters, whatever follows. */
  lemma MatchExtends(e: Engine, f: Form, s: string, rest: string)
    requires MatchLen(e, f, s) > 0
    ensures var n := MatchLen(e, f, s);
      MatchLen(e, f, s[..n] + rest) == n && DigitsAt(e, f, s[..n] + rest) == DigitsAt(e, f, s)
  {
    var n, h := MatchLen(e, f, s), HeadLen(e, f, s);
    var d := Run(DigitOf(e), s[h..]);
    var t := s[..n] + rest;
    assert n == h + d + 1 && s[h + d] == Closer(f);
    RunIn(DigitOf(e), s, h);
    hide HeadLen, Run, DigitOf, Closer, MatchLen, DigitsAt;
    assert t[..n] == s[..n];
    SameFront(s, t, n, h + 1);
    HeadExtends(e, f, s, t);
    CloserIsNoDigit(e, f);
    RunExtends(DigitOf(e), s, t, h, d);
    assert t[h + d] == s[h + d];
    MatchParts(e, f, s, h, d);
    MatchParts(e, f, t, h, d);
  }

  lemma SameFront(s: string, t: string, n: nat, m: nat)
    requires m <= n <= |s| && n <= |t| && s[..n] == t[..n]
    ensures s[..m] == t[..m] && forall i | 0 <= i < n :: t[i] == s[i]
  {
    assert forall i | 0 <= i < n :: t[i] == t[..n][i] == s[..n][i] == s[i];
  }

  /** A run with its end is the same in front of any rest. */
  lemma RunExtends(p: char -> bool, s: string, t: string, h: nat, d: nat)
    requires h + d < |s| && h + d < |t| && s[..h + d + 1] == t[..h + d + 1]
    requires !p(s[h + d]) && d == Run(p, s[h..])
    ensures Run(p, t[h..]) == d && t[h..][..d] == s[h..][..d]
  {
    assert forall i | h <= i <= h + d :: t[i] == t[..h + d + 1][i] == s[i];
    RunIn(p, s, h);
    RunIs(p, t[h..], d);
  }

  lemma MatchShrinks(e: Engine, f: Form, p: string, q: string)
    ensures 0 < MatchLen(e, f, p + q) <= |p| ==> MatchLen(e, f, p) > 0
  {
    hide MatchLen, DigitsAt;
    var s := p + q;
    var n := MatchLen(e, f, s);
    if 0 < n <= |p| {
      MatchExtends(e, f, s, p[n..]);
      assert s[..n] + p[n..] == p;
    }
  }

  /** No marker has an opening bracket after its first character. */
  lemma InsideIsOpenerFree(e: Engine, f: Form, s: string)
    requires MatchLen(e, f, s) > 0
    ensures Opener(s[0]) && OpenerFree(s[1..MatchLen(e, f, s)])
  {
    hide MatchLen, HeadLen, DigitOf, Opener, OpenerFree, SpaceOf, LetterS, Fixed, Closer;
    var n, h := MatchLen(e, f, s), HeadLen(e, f, s);
    TailOfMatch(e, f, s);
    HeadIsOpenerFree(e, f, s);
    forall i | 1 <= i < n
      ensures !Opener(s[i])
    {
      if h <= i < n - 1 {
        DigitIsApart(e, s[i]);
        FixedIsMore(s[i]);
      } else if i == n - 1 {
        CloserIsNoOpener(f);
      }
    }
    OpenerFreeSlice(s, n);
  }

  /** Behind its head a marker has digits and its closing bracket. */
  lemma TailOfMatch(e: Engine, f: Form, s: string)
    requires MatchLen(e, f, s) > 0
    ensures var n, h := MatchLen(e, f, s), HeadLen(e, f, s);
      0 < h < n && s[n - 1] == Closer(f) && forall i | h <= i < n - 1 :: DigitOf(e)(s[i])
  {
    hide HeadLen, DigitOf, Closer, Run;
    RunIn(DigitOf(e), s, HeadLen(e, f, s));
  }

  lemma CloserIsNoOpener(f: Form)
    ensures !Opener(Closer(f))
  {
  }

  lemma OpenerFreeSlice(s: string, n: nat)
    requires 1 <= n <= |s| && forall i | 1 <= i < n :: !Opener(s[i])
    ensures OpenerFree(s[1..n])
  {
    hide Opener;
  }

  lemma FixedIsMore(c: char)
    ensures Opener(c) ==> Fixed(c)
  {
  }

  lemma HeadIsOpenerFree(e: Engine, f: Form, s: string)
    requires HeadLen(e, f, s) > 0
    ensures Opener(s[0]) && forall i | 1 <= i < HeadLen(e, f, s) :: !Opener(s[i])
  {
    if f == Word {
      RunIn(SpaceOf(e), s, 7);
    }
  }

  lemma RunIn(p: char -> bool, s: string, h: nat)
    requires h <= |s|
    ensures forall i | h <= i < h + Run(p, s[h..]) :: p(s[i])
  {
    hide Run;
    assert forall i | h <= i < |s| :: s[i] == s[h..][i - h];
  }

  /** Text that starts a new bracket cannot take part in a match begun before it. */
  lemma MatchLocal(e: Engine, f: Form, a: string, b: string)
    requires a != "" && Bracketed(b)
    ensures MatchLen(e, f, a + b) == MatchLen(e, f, a)
  {
    hide MatchLen, DigitsAt;
    var s := a + b;
    if MatchLen(e, f, a) > 0 {
      var n := MatchLen(e, f, a);
      MatchExtends(e, f, a, a[n..] + b);
      assert a[..n] + (a[n..] + b) == s;
    } else if MatchLen(e, f, s) > 0 {
      var n := MatchLen(e, f, s);
      InsideIsOpenerFree(e, f, s);
      assert forall i | 1 <= i < n :: s[i] == s[1..n][i - 1];
      assert b != "" ==> s[|a|] == b[0];
      MatchShrinks(e, f, a, b);
    }
  }

  lemma FormLocal(e: Engine, fs: set<Form>, a: string, b: string)
    requires a != "" && Bracketed(b)
    ensures FormAt(e, fs, a + b) == FormAt(e, fs, a)
  {
    hide MatchLen;
    forall f: Form {
      MatchLocal(e, f, a, b);
    }
  }

  /** The four deviations are told apart by their first characters. */
  lemma Exclusive(e: Engine, f: Form, g: Form, s: string)
    requires f in DEVIATIONS && g in DEVIATIONS
    requires MatchLen(e, f, s) > 0 && MatchLen(e, g, s) > 0
    ensures f == g
  {
    hide Run, DigitOf;
    var h, k := HeadLen(e, f, s), HeadLen(e, g, s);
    assert DigitOf(e)(s[h..][0]) && DigitOf(e)(s[k..][0]);
    DigitIsApart(e, s[h]);
    DigitIsApart(e, s[k]);
  }

  /** A match also fixes which form `FormAt` reports once text is put behind it. */
  lemma FormExtends(e: Engine, fs: set<Form>, f: Form, s: string, rest: string)
    requires fs <= DEVIATIONS && f in fs && MatchLen(e, f, s) > 0
    ensures var n := MatchLen(e, f, s);
      FormAt(e, fs, s[..n] + rest) == Some(f)
  {
    MatchExtends(e, f, s, rest);
    var t := s[..MatchLen(e, f, s)] + rest;
    Exclusive(e, f, FormAt(e, fs, t).value, t);
  }

  // ---------------------------------------------------------------- rewriting

  /** Markers begin with an opening bracket. */
  lemma NoFormHere(e: Engine, fs: set<Form>, s: string)
    requires s != "" && !Opener(s[0])
    ensures FormAt(e, fs, s) == None
  {
    hide MatchLen, FormAt;
    if FormAt(e, fs, s).Some? {
      InsideIsOpenerFree(e, FormAt(e, fs, s).value, s);
    }
  }

  lemma {:induction false} RewritePlain(e: Engine, fs: set<Form>, u: string, t: string)
    requires OpenerFree(u)
    ensures Rewrite(e, fs, u + t) == u + Rewrite(e, fs, t)
  {
    hide FormAt, MatchLen, DigitsAt;
    if u == "" {
      assert u + t == t;
    } else {
      var s := u + t;
      assert !Opener(s[0]);
      NoFormHere(e, fs, s);
      assert s[1..] == u[1..] + t;
      RewritePlain(e, fs, u[1..], t);
    }
  }

  lemma PlainCons(t: string, k: nat)
    requires 1 <= k <= |t| && !Opener(t[0]) && OpenerFree(t[1..][..k - 1])
    ensures OpenerFree(t[..k]) && t[k..] == t[1..][k - 1..]
  {
    hide Opener;
    forall i | 0 <= i < k
      ensures !Opener(t[..k][i])
    {
      assert i > 0 ==> t[..k][i] == t[1..][..k - 1][i - 1];
    }
  }

  /** `t` cut where its first opening bracket stands. */
  function Plain(t: string): (k: nat)
    ensures k <= |t| && OpenerFree(t[..k]) && Bracketed(t[k..])
  {
    if t == "" || Opener(t[0]) then 0
    else
      var k := 1 + Plain(t[1..]);
      PlainCons(t, k);
      k
  }

  lemma RewriteKeepsBracket(e: Engine, fs: set<Form>, s: string)
    requires Bracketed(s)
    ensures Bracketed(Rewrite(e, fs, s))
  {
  }

  /** Text up to its first opening bracket is copied; what follows begins with a bracket still. */
  lemma RewriteSplit(e: Engine, fs: set<Form>, t: string)
    ensures var u, v := t[..Plain(t)], t[Plain(t)..];
      t == u + v && Bracketed(v) && Rewrite(e, fs, t) == u + Rewrite(e, fs, v) && Bracketed(Rewrite(e, fs, v))
  {
    hide Rewrite, OpenerFree, Bracketed;
    var u, v := t[..Plain(t)], t[Plain(t)..];
    assert t == u + v;
    RewritePlain(e, fs, u, v);
    RewriteKeepsBracket(e, fs, v);
  }

  /** Rewriting the text behind an opening bracket does not change whether that bracket opens a marker. */
  lemma RewriteKeepsForm(e: Engine, fs: set<Form>, gs: set<Form>, s: string)
    requires s != ""
    ensures FormAt(e, gs, [s[0]] + Rewrite(e, fs, s[1..])) == FormAt(e, gs, s)
  {
    hide FormAt, Rewrite, Bracketed, OpenerFree, Plain, MatchLen;
    var t := s[1..];
    RewriteSplit(e, fs, t);
    var a, v := [s[0]] + t[..Plain(t)], t[Plain(t)..];
    FormLocal(e, gs, a, v);
    FormLocal(e, gs, a, Rewrite(e, fs, v));
    assert s == [s[0]] + t == a + v;
    assert a + Rewrite(e, fs, v) == [s[0]] + Rewrite(e, fs, t);
  }

  /** A canonical marker in front survives any pass. */
  lemma RewriteCanon(e: Engine, gs: set<Form>, d: string, x: string)
    requires gs <= DEVIATIONS
    requires d != "" && forall i | 0 <= i < |d| :: DigitOf(e)(d[i])
    ensures Rewrite(e, gs, Canon(d) + x) == Canon(d) + Rewrite(e, gs, x)
  {
    hide FormAt, MatchLen, DigitsAt;
    var s := Canon(d) + x;
    CanonMatches(e, Bare, d, x);
    match FormAt(e, gs, s) {
      case Some(g) =>
        Exclusive(e, g, Bare, s);
        assert s[|Canon(d)|..] == x;
      case None =>
        var u := s[1..|Canon(d)|];
        assert OpenerFree(u) by {
          forall i | 0 <= i < |u|
            ensures !Opener(u[i])
          {
            if 1 <= i < |u| - 1 {
              assert u[i] == d[i - 1];
              DigitIsApart(e, u[i]);
            }
          }
        }
        assert s[1..] == u + x;
        RewritePlain(e, gs, u, x);
        assert [s[0]] + u == Canon(d);
        assert [s[0]] + (u + Rewrite(e, gs, x)) == Canon(d) + Rewrite(e, gs, x);
    }
  }

  lemma CanonMatches(e: Engine, f: Form, d: string, x: string)
    requires f == Bare || f == Canonical
    requires d != "" && forall i | 0 <= i < |d| :: DigitOf(e)(d[i])
    ensures MatchLen(e, f, Canon(d) + x) == |Canon(d)|
    ensures DigitsAt(e, f, Canon(d) + x) == d
  {
    var s := Canon(d) + x;
    assert HeadLen(e, f, s) == 2;
    assert forall i | 0 <= i < |d| :: s[2..][i] == d[i];
    assert s[2..][|d|] == ']' == Closer(f);
    CloserIsNoDigit(e, f);
    hide DigitOf;
    RunIs(DigitOf(e), s[2..], |d|);
    assert s[2..][..|d|] == d;
  }

  /** Two passes equal one pass over the union of their forms, so passes commute and repeat harmlessly. */
  lemma {:induction false} PassesFuse(e: Engine, fs: set<Form>, gs: set<Form>, s: string)
    requires fs <= DEVIATIONS && gs <= DEVIATIONS
    ensures Rewrite(e, gs, Rewrite(e, fs, s)) == Rewrite(e, fs + gs, s)
    decreases |s|
  {
    hide FormAt, MatchLen, DigitsAt;
    if s == "" {
      return;
    }
    match FormAt(e, fs, s)
    case Some(f) =>
      var n := MatchLen(e, f, s);
      PassesFuse(e, fs, gs, s[n..]);
      Exclusive(e, f, FormAt(e, fs + gs, s).value, s);
      RewriteCanon(e, gs, DigitsAt(e, f, s), Rewrite(e, fs, s[n..]));
    case None =>
      var r := Rewrite(e, fs, s);
      RewriteKeepsForm(e, fs, gs, s);
      match FormAt(e, gs, s) {
        case None =>
          PassesFuse(e, fs, gs, s[1..]);
          assert r[1..] == Rewrite(e, fs, s[1..]);
          assert FormAt(e, fs + gs, s) == None;
        case Some(g) =>
          var n := MatchLen(e, g, s);
          PassesFuse(e, fs, gs, s[n..]);
          Exclusive(e, g, FormAt(e, fs + gs, s).value, s);
          RewriteUnmatched(e, fs, g, s);
          MatchExtends(e, g, s, Rewrite(e, fs, s[n..]));
          assert r[n..] == Rewrite(e, fs, s[n..]);
      }
  }

  lemma RewriteCopies(e: Engine, fs: set<Form>, s: string)
    requires s != "" && FormAt(e, fs, s) == None
    ensures Rewrite(e, fs, s) == [s[0]] + Rewrite(e, fs, s[1..])
  {
    hide FormAt;
  }

  /** A marker whose form a pass does not handle is copied through. */
  lemma RewriteUnmatched(e: Engine, fs: set<Form>, g: Form, s: string)
    requires MatchLen(e, g, s) > 0 && FormAt(e, fs, s) == None
    ensures var n := MatchLen(e, g, s); Rewrite(e, fs, s) == s[..n] + Rewrite(e, fs, s[n..])
  {
    hide FormAt, MatchLen, DigitsAt, Rewrite;
    RewriteCopies(e, fs, s);
    var n := MatchLen(e, g, s);
    InsideIsOpenerFree(e, g, s);
    assert s[1..] == s[1..n] + s[n..];
    RewritePlain(e, fs, s[1..n], s[n..]);
    assert [s[0]] + (s[1..n] + Rewrite(e, fs, s[n..])) == s[..n] + Rewrite(e, fs, s[n..]);
  }

  // ---------------------------------------------------------------- extraction

  /** `int` of a digit string. */
  function ParseNat(digits: string): nat {
    if digits == "" then 0
    else
      var c := digits[|digits| - 1];
      10 * ParseNat(digits[..|digits| - 1]) + DigitValue(c)
  }

  /** The index inside a marker: its first run of digits. */
  function MarkerIndex(e: Engine, marker: string): nat {
    if marker == "" then 0
    else if DigitOf(e)(marker[0]) then ParseNat(marker[..Run(DigitOf(e), marker)])
    else MarkerIndex(e, marker[1..])
  }

  function Indices(e: Engine, markers: seq<string>): seq<nat> {
    seq(|markers|, i requires 0 <= i < |markers| => MarkerIndex(e, markers[i]))
  }

  /** Keeps the first occurrence of each element. */
  function Dedup<T(==,!new)>(xs: seq<T>): (r: seq<T>)
    ensures forall x :: x in r <==> x in xs
    ensures forall i, j | 0 <= i < j < |r| :: r[i] != r[j]
  {
    if xs == [] then []
    else
      var d := Dedup(xs[..|xs| - 1]);
      var x := xs[|xs| - 1];
      assert xs == xs[..|xs| - 1] + [x];
      if x in d then d else d + [x]
  }

  /** What the server's passes amount to. */
  function Normalized(text: string): string {
    Rewrite(Python, DEVIATIONS, text)
  }

  /** What `extract_cited_indices` returns for a normalized text. */
  function CitedIndices(normalized: string): seq<nat> {
    Dedup(Indices(Python, Markers(Python, {Canonical}, normalized)))
  }

  /** The indices of every marker the server recognises in the raw text, in order of first appearance. */
  function RawIndices(e: Engine, text: string): seq<nat> {
    Dedup(Indices(e, Markers(e, DEVIATIONS, text)))
  }

  lemma CharsOfHead(e: Engine, f: Form, s: string)
    ensures forall i | 0 <= i < HeadLen(e, f, s) :: SpaceOf(e)(s[i]) || LetterS(e, s[i]) || Fixed(s[i])
  {
    hide SpaceOf, IgnoringCase, Run;
    if f == Word && HeadLen(e, f, s) > 0 {
      RunIn(SpaceOf(e), s, 7);
      assert forall i | 0 <= i < 7 :: LetterS(e, s[i]) || Fixed(s[i]);
    }
  }

  lemma HeadHasNoDigit(e: Engine, f: Form, s: string)
    ensures forall i | 0 <= i < HeadLen(e, f, s) :: !DigitOf(e)(s[i])
  {
    CharsOfHead(e, f, s);
    hide HeadLen, DigitOf, SpaceOf, LetterS, Fixed;
    forall i | 0 <= i < HeadLen(e, f, s) && DigitOf(e)(s[i])
      ensures false
    {
      DigitIsApart(e, s[i]);
    }
  }

  lemma MatchIndex(e: Engine, f: Form, s: string)
    requires MatchLen(e, f, s) > 0
    ensures MarkerIndex(e, s[..MatchLen(e, f, s)]) == ParseNat(DigitsAt(e, f, s))
  {
    hide HeadLen, MarkerIndex, ParseNat, DigitOf;
    var n := MatchLen(e, f, s);
    var h := HeadLen(e, f, s);
    var d := Run(DigitOf(e), s[h..]);
    HeadHasNoDigit(e, f, s);
    var m := s[..n];
    assert DigitOf(e)(s[h..][0]);
    SkipToDigits(e, m, h);
    assert forall i | 0 <= i < d :: m[h..][i] == s[h..][i];
    assert m[h..][d] == s[h + d] == Closer(f);
    CloserIsNoDigit(e, f);
    RunIs(DigitOf(e), m[h..], d);
    assert m[h..][..d] == s[h..][..d];
  }

  lemma {:induction false} SkipToDigits(e: Engine, m: string, h: nat)
    requires h < |m| && DigitOf(e)(m[h]) && forall i | 0 <= i < h :: !DigitOf(e)(m[i])
    ensures MarkerIndex(e, m) == ParseNat(m[h..][..Run(DigitOf(e), m[h..])])
  {
    hide DigitOf;
    if h == 0 {
      assert m[0..] == m;
    } else {
      SkipToDigits(e, m[1..], h - 1);
      assert m[1..][h - 1..] == m[h..];
    }
  }

  lemma IndicesCons(e: Engine, m: string, ms: seq<string>)
    ensures Indices(e, [m] + ms) == [MarkerIndex(e, m)] + Indices(e, ms)
  {
  }

  lemma {:induction false} MarkersPlain(e: Engine, fs: set<Form>, u: string, t: string)
    requires OpenerFree(u)
    ensures Markers(e, fs, u + t) == Markers(e, fs, t)
  {
    hide MatchLen;
    if u == "" {
      assert u + t == t;
    } else {
      var s := u + t;
      assert !Opener(s[0]);
      NoFormHere(e, fs, s);
      assert s[1..] == u[1..] + t;
      MarkersPlain(e, fs, u[1..], t);
    }
  }

  lemma FormAtOne(e: Engine, f: Form, s: string)
    ensures FormAt(e, {f}, s) == if MatchLen(e, f, s) > 0 then Some(f) else None
  {
    hide MatchLen;
  }

  lemma CanonicalIsBare(e: Engine, s: string)
    ensures MatchLen(e, Canonical, s) > 0 ==> MatchLen(e, Bare, s) > 0
  {
  }

  /** After the four passes, the canonical markers are exactly the raw markers, in order. */
  lemma {:induction false} CanonicalsAreTheMarkers(e: Engine, s: string)
    ensures Indices(e, Markers(e, {Canonical}, Rewrite(e, DEVIATIONS, s))) == Indices(e, Markers(e, DEVIATIONS, s))
    decreases |s|
  {
    hide MatchLen, DigitsAt, FormAt, MarkerIndex, Indices;
    if s == "" {
      return;
    }
    var r := Rewrite(e, DEVIATIONS, s);
    match FormAt(e, DEVIATIONS, s)
    case None =>
      CanonicalsAreTheMarkers(e, s[1..]);
      RewriteKeepsForm(e, DEVIATIONS, {Canonical}, s);
      CanonicalIsBare(e, s);
      FormAtOne(e, Canonical, s);
      assert r[1..] == Rewrite(e, DEVIATIONS, s[1..]);
    case Some(f) =>
      var n := MatchLen(e, f, s);
      var d := DigitsAt(e, f, s);
      var x := Rewrite(e, DEVIATIONS, s[n..]);
      CanonicalsAreTheMarkers(e, s[n..]);
      CanonMatches(e, Canonical, d, x);
      FormAtOne(e, Canonical, r);
      MatchIndex(e, f, s);
      MatchIndex(e, Canonical, r);
      assert r[|Canon(d)|..] == x;
      assert r[..|Canon(d)|] == Canon(d);
      IndicesCons(e, Canon(d), Markers(e, {Canonical}, x));
      IndicesCons(e, s[..n], Markers(e, DEVIATIONS, s[n..]));
  }

  lemma CitedIsRaw(text: string)
    ensures CitedIndices(Normalized(text)) == RawIndices(Python, text)
  {
    CanonicalsAreTheMarkers(Python, text);
  }

  // ---------------------------------------------------------------- growing text

  /** Markers already found stay found, in place, as text arrives behind them. */
  lemma {:induction false} MarkersGrow(e: Engine, fs: set<Form>, p: string, q: string)
    requires fs <= DEVIATIONS
    ensures Markers(e, fs, p) <= Markers(e, fs, p + q)
    decreases |p|
  {
    hide MatchLen, DigitsAt, FormAt;
    if p == "" {
      return;
    }
    var s := p + q;
    match FormAt(e, fs, p)
    case Some(f) =>
      var n := MatchLen(e, f, p);
      assert s == p[..n] + (p[n..] + q);
      FormExtends(e, fs, f, p, p[n..] + q);
      MatchExtends(e, f, p, p[n..] + q);
      assert s[n..] == p[n..] + q && s[..n] == p[..n];
      MarkersGrow(e, fs, p[n..], q);
    case None =>
      match FormAt(e, fs, s) {
        case None =>
          assert s[1..] == p[1..] + q;
          MarkersGrow(e, fs, p[1..], q);
        case Some(f) =>
          // The marker is completed by q, so p has no other bracket in it.
          var n := MatchLen(e, f, s);
          InsideIsOpenerFree(e, f, s);
          MatchShrinks(e, f, p, q);
          assert forall i | 0 <= i < |p[1..]| :: p[1..][i] == s[1..n][i];
          MarkersPlain(e, fs, p[1..], "");
          assert p[1..] + "" == p[1..];
      }
  }

  lemma {:induction false} DedupGrows<T(!new)>(xs: seq<T>, ys: seq<T>)
    requires xs <= ys
    ensures Dedup(xs) <= Dedup(ys)
    decreases |ys|
  {
    if |xs| < |ys| {
      DedupGrows(xs, ys[..|ys| - 1]);
    } else {
      assert xs == ys;
    }
  }

  /** The citations of a prefix of an answer are a prefix of the citations of the answer. */
  lemma CitedGrows(p: string, q: string)
    ensures CitedIndices(Normalized(p)) <= CitedIndices(Normalized(p + q))
  {
    CitedIsRaw(p);
    CitedIsRaw(p + q);
    MarkersGrow(Python, DEVIATIONS, p, q);
    DedupGrows(Indices(Python, Markers(Python, DEVIATIONS, p)), Indices(Python, Markers(Python, DEVIATIONS, p + q)));
  }

  // ---------------------------------------------------------------- the client

  /** A marker of the client's pattern at the front of `s`: its length, or 0. */
  function ClientLen(s: string): (n: nat)
    ensures n <= |s|
  {
    match FormAt(JavaScript, DEVIATIONS, s)
    case None => 0
    case Some(f) => MatchLen(JavaScript, f, s)
  }

  function NonEmpty(piece: string): seq<string> {
    if piece == "" then [] else [piece]
  }

  /** `split` by a capturing pattern with the empty pieces dropped; `prose` is the piece being gathered. */
  function SplitFrom(prose: string, s: string): seq<string>
    decreases |s|
  {
    if s == "" then NonEmpty(prose)
    else
      var n := ClientLen(s);
      if n == 0 then SplitFrom(prose + [s[0]], s[1..])
      else NonEmpty(prose) + [s[..n]] + SplitFrom("", s[n..])
  }

  function SplitOnCitations(text: string): seq<string> {
    SplitFrom("", text)
  }

  /** The pattern anchored at both ends. */
  predicate IsCitationMarker(piece: string) {
    piece != "" && ClientLen(piece) == |piece|
  }

  function Pills(pieces: seq<string>): seq<string> {
    if pieces == [] then []
    else (if IsCitationMarker(pieces[0]) then [pieces[0]] else []) + Pills(pieces[1..])
  }

  lemma {:induction false} PillsAppend(xs: seq<string>, ys: seq<string>)
    ensures Pills(xs + ys) == Pills(xs) + Pills(ys)
  {
    hide IsCitationMarker;
    if xs == [] {
      assert xs + ys == ys;
    } else {
      assert (xs + ys)[1..] == xs[1..] + ys;
      PillsAppend(xs[1..], ys);
      var p := if IsCitationMarker(xs[0]) then [xs[0]] else [];
      calc {
        Pills(xs + ys);
        p + Pills(xs[1..] + ys);
        p + (Pills(xs[1..]) + Pills(ys));
        (p + Pills(xs[1..])) + Pills(ys);
        Pills(xs) + Pills(ys);
      }
    }
  }

  /** No character of the text is lost. */
  lemma {:induction false} PiecesReassemble(prose: string, s: string)
    ensures Concat(SplitFrom(prose, s)) == prose + s
    decreases |s|
  {
    hide ClientLen;
    assert Concat(NonEmpty(prose)) == prose by {
      assert [prose][1..] == [];
    }
    if s != "" {
      var n := ClientLen(s);
      if n == 0 {
        PiecesReassemble(prose + [s[0]], s[1..]);
        assert (prose + [s[0]]) + s[1..] == prose + s;
      } else {
        PiecesReassemble("", s[n..]);
        var rest := SplitFrom("", s[n..]);
        ConcatAppend(NonEmpty(prose) + [s[..n]], rest);
        ConcatSnoc(NonEmpty(prose), s[..n]);
        assert s[..n] + s[n..] == s;
      }
    }
  }

  /** No piece is empty. */
  lemma {:induction false} PiecesNonEmpty(prose: string, s: string)
    ensures "" !in SplitFrom(prose, s)
    decreases |s|
  {
    hide ClientLen;
    if s != "" {
      var n := ClientLen(s);
      if n == 0 {
        PiecesNonEmpty(prose + [s[0]], s[1..]);
      } else {
        PiecesNonEmpty("", s[n..]);
      }
    }
  }

  /** Gathered prose: no marker starts at its first character in the text it was taken from. */
  ghost predicate ProseIn(prose: string, s: string) {
    prose != "" ==> ClientLen(prose + s) == 0
  }

  lemma ProseIsNoPill(prose: string, s: string)
    requires ProseIn(prose, s) && (s == "" || ClientLen(s) > 0)
    ensures Pills(NonEmpty(prose)) == []
  {
    hide FormAt, MatchLen;
    if prose != "" {
      var f := FormAt(JavaScript, DEVIATIONS, s);
      if s != "" {
        InsideIsOpenerFree(JavaScript, f.value, s);
      }
      FormLocal(JavaScript, DEVIATIONS, prose, s);
      if s == "" {
        assert prose + s == prose;
      }
    }
  }

  lemma MarkerIsPill(s: string)
    requires ClientLen(s) > 0
    ensures IsCitationMarker(s[..ClientLen(s)])
  {
    hide FormAt, MatchLen, DigitsAt;
    var n := ClientLen(s);
    var f := FormAt(JavaScript, DEVIATIONS, s).value;
    FormExtends(JavaScript, DEVIATIONS, f, s, "");
    MatchExtends(JavaScript, f, s, "");
    assert s[..n] + "" == s[..n];
  }

  /** The pieces the component turns into pills are exactly the pattern's matches. */
  lemma {:induction false} PillsAreMarkers(prose: string, s: string)
    requires ProseIn(prose, s)
    ensures Pills(SplitFrom(prose, s)) == Markers(JavaScript, DEVIATIONS, s)
    decreases |s|
  {
    hide FormAt, MatchLen, IsCitationMarker;
    if s == "" {
      ProseIsNoPill(prose, s);
      return;
    }
    var n := ClientLen(s);
    if n == 0 {
      assert (prose + [s[0]]) + s[1..] == prose + s;
      assert prose == "" ==> prose + s == s;
      PillsAreMarkers(prose + [s[0]], s[1..]);
    } else {
      ProseIsNoPill(prose, s);
      MarkerIsPill(s);
      PillsAreMarkers("", s[n..]);
      PillBetween(NonEmpty(prose), s[..n], SplitFrom("", s[n..]));
    }
  }

  lemma PillBetween(before: seq<string>, m: string, rest: seq<string>)
    requires IsCitationMarker(m) && Pills(before) == []
    ensures Pills(before + [m] + rest) == [m] + Pills(rest)
  {
    hide IsCitationMarker;
    PillsAppend(before + [m], rest);
    PillsAppend(before, [m]);
    assert [m][1..] == [];
  }

  // ---------------------------------------------------------------- where server and client agree

  predicate FreeOf(p: char -> bool, s: string) {
    forall i | 0 <= i < |s| :: !p(s[i])
  }

  /** `m` as a whole is a marker for engine `e`. */
  predicate WholeMarker(e: Engine, m: string) {
    match FormAt(e, DEVIATIONS, m)
    case None => false
    case Some(f) => MatchLen(e, f, m) == |m|
  }

  function WholeMarkers(e: Engine, ms: seq<string>): seq<string> {
    if ms == [] then []
    else (if WholeMarker(e, ms[0]) then [ms[0]] else []) + WholeMarkers(e, ms[1..])
  }

  lemma {:induction false} WholeMarkersMember(e: Engine, ms: seq<string>, m: string)
    ensures m in WholeMarkers(e, ms) <==> m in ms && WholeMarker(e, m)
  {
    if ms != [] {
      WholeMarkersMember(e, ms[1..], m);
      assert ms == [ms[0]] + ms[1..];
    }
  }

  lemma {:induction false} WholeMarkersAgree(d: Engine, e: Engine, ms: seq<string>)
    requires forall m | m in ms :: WholeMarker(d, m) <==> WholeMarker(e, m)
    ensures WholeMarkers(d, ms) == WholeMarkers(e, ms)
  {
    if ms != [] {
      WholeMarkersAgree(d, e, ms[1..]);
    }
  }

  /** The wider engine accepts whatever a narrower one does, with the same extent. */
  lemma EitherMatches(e: Engine, f: Form, s: string)
    requires MatchLen(e, f, s) > 0
    ensures MatchLen(Either, f, s) == MatchLen(e, f, s)
  {
    var n := MatchLen(e, f, s);
    ClassesWiden(e);
    SameLen(e, Either, f, s);
  }

  lemma ClassesWiden(e: Engine)
    ensures forall c :: ClassesPass(e, Either, c)
  {
    hide ForeignDigit;
  }

  /** Whatever `d` takes `c` for, `e` takes it for as well. */
  predicate ClassesPass(d: Engine, e: Engine, c: char) {
    && (SpaceOf(d)(c) ==> SpaceOf(e)(c))
    && (DigitOf(d)(c) ==> DigitOf(e)(c))
    && (LetterS(d, c) ==> LetterS(e, c))
  }

  /** An engine that takes every character of a marker for what it is there finds the same marker. */
  lemma SameLen(d: Engine, e: Engine, f: Form, s: string)
    requires MatchLen(d, f, s) > 0
    requires forall i | 0 <= i < MatchLen(d, f, s) :: ClassesPass(d, e, s[i])
    ensures MatchLen(e, f, s) == MatchLen(d, f, s)
  {
    hide SpaceOf, LetterS, DigitOf, HeadLen, Run, Closer;
    var h := HeadLen(d, f, s);
    var w := Run(DigitOf(d), s[h..]);
    RunIn(DigitOf(d), s, h);
    SameHead(d, e, f, s);
    CloserIsNoDigit(e, f);
    SameRun(d, e, s, h, w);
    MatchParts(e, f, s, h, w);
  }

  lemma SameRun(d: Engine, e: Engine, s: string, h: nat, w: nat)
    requires h + w < |s| && w == Run(DigitOf(d), s[h..]) && !DigitOf(e)(s[h + w])
    requires forall i | h <= i < h + w :: ClassesPass(d, e, s[i])
    ensures Run(DigitOf(e), s[h..]) == w
  {
    hide DigitOf, SpaceOf, LetterS, Run;
    RunIn(DigitOf(d), s, h);
    RunIs(DigitOf(e), s[h..], w);
  }

  lemma SameHead(d: Engine, e: Engine, f: Form, s: string)
    requires var h := HeadLen(d, f, s); 0 < h < |s| && DigitOf(d)(s[h]) && forall i | 0 <= i <= h :: ClassesPass(d, e, s[i])
    ensures HeadLen(e, f, s) == HeadLen(d, f, s)
  {
    var h := HeadLen(d, f, s);
    DigitIsApart(e, s[h]);
    if f == Word {
      var w := Run(SpaceOf(d), s[7..]);
      RunIn(SpaceOf(d), s, 7);
      assert forall i | 0 <= i < w :: s[7..][i] == s[7 + i];
      hide SpaceOf, DigitOf, Run;
      RunIs(SpaceOf(e), s[7..], w);
    }
    hide Run;
  }

  /** A marker of the wider engine, cut out, is a whole marker for `e` just when `e` matches there too. */
  lemma NarrowMatch(e: Engine, f: Form, s: string)
    requires f in DEVIATIONS && MatchLen(Either, f, s) > 0
    ensures var m := s[..MatchLen(Either, f, s)];
      WholeMarker(e, m) <==> FormAt(e, DEVIATIONS, s) == Some(f)
    ensures FormAt(e, DEVIATIONS, s) in {None, Some(f)}
    ensures FormAt(e, DEVIATIONS, s) == Some(f) ==> MatchLen(e, f, s) == MatchLen(Either, f, s)
  {
    hide MatchLen, DigitsAt;
    var n := MatchLen(Either, f, s);
    var m := s[..n];
    assert m + "" == m && m + s[n..] == s;
    MatchExtends(Either, f, s, "");
    match FormAt(e, DEVIATIONS, s) {
      case None =>
      case Some(g) =>
        EitherMatches(e, g, s);
        Exclusive(Either, f, g, s);
        MatchExtends(e, g, s, "");
        FormExtends(e, DEVIATIONS, f, s, "");
    }
    match FormAt(e, DEVIATIONS, m) {
      case None =>
      case Some(g) =>
        EitherMatches(e, g, m);
        Exclusive(Either, f, g, m);
        if MatchLen(e, g, m) == |m| {
          assert m[..|m|] == m;
          MatchExtends(e, g, m, s[n..]);
          FormExtends(e, DEVIATIONS, g, m, s[n..]);
        }
    }
  }

  /** Each engine finds the wider engine's markers that it accepts whole. */
  lemma {:induction false} MarkersAreFiltered(e: Engine, s: string)
    ensures Markers(e, DEVIATIONS, s) == WholeMarkers(e, Markers(Either, DEVIATIONS, s))
    decreases |s|
  {
    hide MatchLen, FormAt, WholeMarker;
    if s == "" {
      return;
    }
    match FormAt(Either, DEVIATIONS, s)
    case None =>
      assert FormAt(e, DEVIATIONS, s) == None by {
        if FormAt(e, DEVIATIONS, s).Some? {
          EitherMatches(e, FormAt(e, DEVIATIONS, s).value, s);
        }
      }
      MarkersAreFiltered(e, s[1..]);
    case Some(f) =>
      var n := MatchLen(Either, f, s);
      NarrowMatch(e, f, s);
      MarkersAreFiltered(e, s[n..]);
      var ms := [s[..n]] + Markers(Either, DEVIATIONS, s[n..]);
      assert ms[1..] == Markers(Either, DEVIATIONS, s[n..]);
      if FormAt(e, DEVIATIONS, s) == None {
        InsideIsOpenerFree(Either, f, s);
        assert s[1..] == s[1..n] + s[n..];
        MarkersPlain(e, DEVIATIONS, s[1..n], s[n..]);
      }
  }

  /** What only Python's classes take in: five more white space characters, more digits, the long s. */
  predicate ServerOnly(c: char) {
    PyOnlySpace(c) || ForeignDigit(c) || c == LONG_S
  }

  /** What never stands in a marker of engine `e` but may stand in one of the other language's. */
  predicate Foreign(e: Engine, c: char) {
    match e
    case Python => JsOnlySpace(c)
    case JavaScript => ServerOnly(c)
    case Either => false
  }

  lemma FamiliarPass(d: Engine, e: Engine, c: char)
    requires !Foreign(e, c)
    ensures ClassesPass(d, e, c)
  {
    hide LowZero, HighZero;
  }

  /** What a marker is made of. */
  lemma NothingForeign(e: Engine, c: char)
    requires SpaceOf(e)(c) || DigitOf(e)(c) || LetterS(e, c) || Fixed(c)
    ensures !Foreign(e, c)
  {
    hide ForeignDigit;
  }

  lemma CharsOfMatch(e: Engine, f: Form, s: string)
    requires MatchLen(e, f, s) > 0
    ensures forall i | 0 <= i < MatchLen(e, f, s) :: !Foreign(e, s[i])
  {
    var n, h := MatchLen(e, f, s), HeadLen(e, f, s);
    CharsOfHead(e, f, s);
    RunIn(DigitOf(e), s, h);
    assert s[n - 1] == Closer(f) && Fixed(Closer(f));
    hide HeadLen, Run, DigitOf, SpaceOf, Foreign, LetterS, Fixed, Closer;
    forall i | 0 <= i < n
      ensures !Foreign(e, s[i])
    {
      assert i < h || h <= i < n - 1 || i == n - 1;
      NothingForeign(e, s[i]);
    }
  }

  /** A marker of engine `d` is one for `e` unless it holds a character foreign to `e`. */
  lemma WholeUnlessForeign(d: Engine, e: Engine, m: string)
    requires m != "" && WholeMarker(d, m)
    ensures WholeMarker(e, m) <==> FreeOf(c => Foreign(e, c), m)
  {
    hide MatchLen, Foreign, ClassesPass;
    var f := FormAt(d, DEVIATIONS, m).value;
    match FormAt(e, DEVIATIONS, m) {
      case Some(g) =>
        if MatchLen(e, g, m) == |m| {
          CharsOfMatch(e, g, m);
        }
      case None =>
    }
    if FreeOf(c => Foreign(e, c), m) {
      forall i | 0 <= i < |m|
        ensures ClassesPass(d, e, m[i])
      {
        FamiliarPass(d, e, m[i]);
      }
      SameLen(d, e, f, m);
      Exclusive(e, f, FormAt(e, DEVIATIONS, m).value, m);
    }
  }

  lemma {:induction false} MarkersAreWhole(e: Engine, s: string, m: string)
    ensures m in Markers(e, DEVIATIONS, s) <==> m in Markers(Either, DEVIATIONS, s) && WholeMarker(e, m)
  {
    MarkersAreFiltered(e, s);
    WholeMarkersMember(e, Markers(Either, DEVIATIONS, s), m);
  }

  /** No marker holds a character that only one of the two languages takes for white space, a digit or an s. */
  predicate PlainlyWritten(text: string) {
    && (forall m | m in Markers(Python, DEVIATIONS, text) :: FreeOf(ServerOnly, m))
    && (forall m | m in Markers(JavaScript, DEVIATIONS, text) :: FreeOf(JsOnlySpace, m))
  }

  lemma WholeForBoth(m: string)
    requires m != ""
    ensures WholeMarker(Python, m) ==> (WholeMarker(JavaScript, m) <==> FreeOf(ServerOnly, m))
    ensures WholeMarker(JavaScript, m) ==> (WholeMarker(Python, m) <==> FreeOf(JsOnlySpace, m))
  {
    hide WholeMarker, ServerOnly, JsOnlySpace;
    if WholeMarker(Python, m) {
      WholeUnlessForeign(Python, JavaScript, m);
    }
    if WholeMarker(JavaScript, m) {
      WholeUnlessForeign(JavaScript, Python, m);
    }
  }

  lemma {:induction false} MarkersNonEmpty(e: Engine, fs: set<Form>, s: string)
    ensures "" !in Markers(e, fs, s)
    decreases |s|
  {
    hide MatchLen, FormAt;
    if s != "" {
      match FormAt(e, fs, s)
      case None => MarkersNonEmpty(e, fs, s[1..]);
      case Some(f) => MarkersNonEmpty(e, fs, s[MatchLen(e, f, s)..]);
    }
  }

  /** `m`, found by the engine that knows both kinds of white space, is found by each of the two languages. */
  lemma MarkerForBoth(text: string, m: string)
    requires m in Markers(Either, DEVIATIONS, text)
    ensures m in Markers(Python, DEVIATIONS, text) <==> WholeMarker(Python, m)
    ensures m in Markers(JavaScript, DEVIATIONS, text) <==> WholeMarker(JavaScript, m)
    ensures WholeMarker(Python, m) ==> (WholeMarker(JavaScript, m) <==> FreeOf(ServerOnly, m))
    ensures WholeMarker(JavaScript, m) ==> (WholeMarker(Python, m) <==> FreeOf(JsOnlySpace, m))
  {
    hide WholeMarker, FormAt, FreeOf, Markers;
    MarkersNonEmpty(Either, DEVIATIONS, text);
    MarkersAreWhole(Python, text, m);
    MarkersAreWhole(JavaScript, text, m);
    WholeForBoth(m);
  }

  /** The client turns exactly the server's markers into pills just when every marker is plainly written. */
  lemma SameMarkersIff(text: string)
    ensures Markers(Python, DEVIATIONS, text) == Pills(SplitOnCitations(text)) <==> PlainlyWritten(text)
  {
    hide WholeMarker, FormAt, FreeOf, Markers, Pills, SplitFrom;
    PillsAreMarkers("", text);
    var py, js := Markers(Python, DEVIATIONS, text), Markers(JavaScript, DEVIATIONS, text);
    var all := Markers(Either, DEVIATIONS, text);
    if py == js {
      forall m | m in py
        ensures FreeOf(ServerOnly, m) && FreeOf(JsOnlySpace, m)
      {
        MarkersAreWhole(Python, text, m);
        MarkerForBoth(text, m);
      }
    }
    if PlainlyWritten(text) {
      forall m | m in all
        ensures WholeMarker(Python, m) <==> WholeMarker(JavaScript, m)
      {
        MarkerForBoth(text, m);
      }
      MarkersAreFiltered(Python, text);
      MarkersAreFiltered(JavaScript, text);
      WholeMarkersAgree(Python, JavaScript, all);
    }
  }

  /** Without digits that only Python knows, both languages read the same index out of a marker. */
  lemma {:induction false} SameIndex(m: string)
    requires FreeOf(ForeignDigit, m)
    ensures MarkerIndex(Python, m) == MarkerIndex(JavaScript, m)
  {
    hide ForeignDigit;
    if m != "" {
      if Digit(m[0]) {
        var n := Run(Digit, m);
        RunIs(PyDigit, m, n);
      } else {
        SameIndex(m[1..]);
      }
    }
  }

  lemma SameIndices(ms: seq<string>)
    requires forall m | m in ms :: FreeOf(ServerOnly, m)
    ensures Indices(Python, ms) == Indices(JavaScript, ms)
  {
    hide MarkerIndex, ForeignDigit;
    forall k | 0 <= k < |ms|
      ensures MarkerIndex(Python, ms[k]) == MarkerIndex(JavaScript, ms[k])
    {
      assert ms[k] in ms;
      SameIndex(ms[k]);
    }
  }

  /** Then the index each pill shows and the index the server stores are the same list. */
  lemma ServerAndClientCite(text: string)
    requires PlainlyWritten(text)
    ensures CitedIndices(Normalized(text)) == Dedup(Indices(JavaScript, Pills(SplitOnCitations(text))))
    ensures Concat(SplitOnCitations(text)) == text && "" !in SplitOnCitations(text)
  {
    CitedIsRaw(text);
    SameMarkersIff(text);
    SameIndices(Markers(Python, DEVIATIONS, text));
    PiecesReassemble("", text);
    PiecesNonEmpty("", text);
  }

  /** A text that is a marker as a whole is the one marker in it. */
  lemma OneMarker(e: Engine, f: Form, text: string)
    requires f in DEVIATIONS && MatchLen(e, f, text) == |text| > 0
    ensures Markers(e, DEVIATIONS, text) == [text] && WholeMarker(e, text)
  {
    hide MatchLen, DigitsAt, FormAt;
    Exclusive(e, f, FormAt(e, DEVIATIONS, text).value, text);
    assert text[|text|..] == "" && text[..|text|] == text;
  }

  /** Whatever the server takes for a marker with a character of its own classes in it is prose for the client. */
  lemma ServerOnlyIsProse(f: Form, text: string)
    requires f in DEVIATIONS && MatchLen(Python, f, text) == |text| > 0 && !FreeOf(ServerOnly, text)
    ensures Markers(Python, DEVIATIONS, text) == [text] && Pills(SplitOnCitations(text)) == []
  {
    hide MatchLen, FormAt, WholeMarker, Markers, Pills, SplitFrom, ServerOnly;
    OneMarker(Python, f, text);
    EitherMatches(Python, f, text);
    OneMarker(Either, f, text);
    WholeForBoth(text);
    MarkersAreFiltered(JavaScript, text);
    assert [text][1..] == [];
    PillsAreMarkers("", text);
  }

  lemma CitedAlone(f: Form, text: string)
    requires f in DEVIATIONS && MatchLen(Python, f, text) == |text| > 0
    ensures CitedIndices(Normalized(text)) == [ParseNat(DigitsAt(Python, f, text))]
  {
    hide Rewrite, MatchLen, DigitsAt, Markers;
    CitedIsRaw(text);
    OneMarker(Python, f, text);
    MatchIndex(Python, f, text);
    assert text[..|text|] == text;
    var n := MarkerIndex(Python, text);
    assert Indices(Python, [text]) == [n];
    assert [n][..0] == [] && Dedup([n]) == [] + [n] == [n];
  }

  // ---------------------------------------------------------------- the markers as they are written

  /** The letters of the word, in any case. */
  predicate SpellsSource(e: Engine, w: string) {
    && |w| == 6 && LetterS(e, w[0]) && w[1] in {'o', 'O'} && w[2] in {'u', 'U'} && w[3] in {'r', 'R'}
    && w[4] in {'c', 'C'} && w[5] in {'e', 'E'}
  }

  /** What a marker of form `f` has before its digits. */
  predicate IsHead(e: Engine, f: Form, head: string) {
    match f
    case Paren => |head| == 2 && head[0] == '(' && LetterS(e, head[1])
    case Bare => |head| == 2 && head[0] == '[' && LetterS(e, head[1])
    case Canonical => head == "[S"
    case Number => head == "["
    case Word =>
      && |head| > 7 && head[0] == '[' && SpellsSource(e, head[1..7])
      && forall i | 7 <= i < |head| :: SpaceOf(e)(head[i])
  }

  predicate AllDigits(e: Engine, digits: string) {
    digits != "" && forall i | 0 <= i < |digits| :: DigitOf(e)(digits[i])
  }

  /** Head, digits and closing bracket. */
  ghost predicate WrittenAs(e: Engine, f: Form, m: string) {
    exists head, digits :: IsHead(e, f, head) && AllDigits(e, digits) && m == head + digits + [Closer(f)]
  }

  lemma HeadIs(e: Engine, f: Form, head: string, rest: string)
    requires IsHead(e, f, head) && rest != "" && DigitOf(e)(rest[0])
    ensures HeadLen(e, f, head + rest) == |head|
  {
    var s := head + rest;
    hide DigitOf, LetterS, SpaceOf, Run;
    if f == Word {
      assert forall i | 0 <= i < 6 :: head[1..7][i] == s[i + 1];
      assert forall i | 7 <= i < |head| :: s[7..][i - 7] == head[i];
      assert s[7..][|head| - 7] == rest[0];
      DigitIsApart(e, rest[0]);
      RunIs(SpaceOf(e), s[7..], |head| - 7);
    }
  }

  /** What is written that way is matched, whatever follows, with the digits it holds. */
  lemma WrittenMatches(e: Engine, f: Form, head: string, digits: string, rest: string)
    requires IsHead(e, f, head) && AllDigits(e, digits)
    ensures var m := head + digits + [Closer(f)];
      MatchLen(e, f, m + rest) == |m| && DigitsAt(e, f, m + rest) == digits
  {
    hide IsHead, HeadLen, Run, Closer, DigitOf;
    var h, d := |head|, |digits|;
    var s := head + digits + [Closer(f)] + rest;
    var tail := digits + [Closer(f)] + rest;
    assert s == head + tail && tail[0] == digits[0];
    HeadIs(e, f, head, tail);
    HeadNotEmpty(e, f, head);
    CloserIsNoDigit(e, f);
    assert s[h..] == tail && tail[d] == Closer(f) == s[h + d];
    RunIs(DigitOf(e), tail, d);
    MatchParts(e, f, s, h, d);
    assert tail[..d] == digits;
  }

  lemma HeadNotEmpty(e: Engine, f: Form, head: string)
    requires IsHead(e, f, head)
    ensures head != "" && Opener(head[0])
  {
  }

  /** The part before the digits is a head of its form. */
  lemma HeadWritten(e: Engine, f: Form, s: string)
    requires HeadLen(e, f, s) > 0
    ensures IsHead(e, f, s[..HeadLen(e, f, s)])
  {
    var h := HeadLen(e, f, s);
    var head := s[..h];
    assert forall i | 0 <= i < h :: head[i] == s[i];
    if f == Word {
      RunIn(SpaceOf(e), s, 7);
      hide SpaceOf, Run, LetterS;
      assert forall i | 0 <= i < 6 :: head[1..7][i] == s[i + 1];
    }
  }

  lemma MatchIsWritten(e: Engine, f: Form, s: string)
    requires MatchLen(e, f, s) > 0
    ensures WrittenAs(e, f, s[..MatchLen(e, f, s)])
  {
    hide HeadLen, Run, DigitOf, Closer, IsHead;
    var n, h := MatchLen(e, f, s), HeadLen(e, f, s);
    HeadWritten(e, f, s);
    RunIn(DigitOf(e), s, h);
    PartsOfMatch(s, h, n);
    SliceIsDigits(e, s, h, n - 1);
    hide MatchLen, AllDigits;
    assert s[n - 1] == Closer(f);
  }

  lemma SliceIsDigits(e: Engine, s: string, from: nat, to: nat)
    requires from < to <= |s| && forall i | from <= i < to :: DigitOf(e)(s[i])
    ensures AllDigits(e, s[from..to])
  {
    hide DigitOf;
  }

  lemma PartsOfMatch(s: string, h: nat, n: nat)
    requires h < n <= |s|
    ensures s[..n] == s[..h] + s[h..n - 1] + [s[n - 1]]
  {
  }

  /**
   The patterns match exactly what is written as their form: there is a marker of length `n` at the
   front of `s` if and only if those characters are one.
   */
  lemma MatchIff(e: Engine, f: Form, s: string, n: nat)
    requires 0 < n <= |s|
    ensures MatchLen(e, f, s) == n <==> WrittenAs(e, f, s[..n])
  {
    hide IsHead, MatchLen, DigitsAt, AllDigits;
    if MatchLen(e, f, s) == n {
      MatchIsWritten(e, f, s);
    }
    if head, digits :| IsHead(e, f, head) && AllDigits(e, digits) && s[..n] == head + digits + [Closer(f)] {
      WrittenMatches(e, f, head, digits, s[n..]);
      assert s[..n] + s[n..] == s;
    }
  }

  /** A marker is found wherever it stands: behind text without brackets, and before any text. */
  lemma MarkerInProse(e: Engine, f: Form, before: string, m: string, after: string)
    requires f in DEVIATIONS && WrittenAs(e, f, m) && OpenerFree(before)
    ensures Markers(e, DEVIATIONS, before + m + after) == [m] + Markers(e, DEVIATIONS, after)
  {
    hide WrittenAs, OpenerFree, MatchLen, FormAt, DigitsAt;
    var s := m + after;
    assert s[..|m|] == m && s[|m|..] == after;
    WrittenNotEmpty(e, f, m);
    MatchIff(e, f, s, |m|);
    Exclusive(e, f, FormAt(e, DEVIATIONS, s).value, s);
    assert before + m + after == before + s;
    MarkersPlain(e, DEVIATIONS, before, s);
  }

  lemma WrittenNotEmpty(e: Engine, f: Form, m: string)
    requires WrittenAs(e, f, m)
    ensures m != ""
  {
  }

  function DigitChar(k: nat): char
    requires k < 10
  {
    ('0' as int + k) as char
  }

  /** A number as it is printed. */
  ghost function Decimal(n: nat): string {
    if n < 10 then [DigitChar(n)] else Decimal(n / 10) + [DigitChar(n % 10)]
  }

  /** Reading a printed number gives the number. */
  lemma {:induction false} ParseDecimal(n: nat)
    ensures ParseNat(Decimal(n)) == n && Decimal(n) != ""
    ensures forall i | 0 <= i < |Decimal(n)| :: Digit(Decimal(n)[i])
  {
    hide ForeignDigit;
    var ds := Decimal(n);
    var last := DigitChar(n % 10);
    assert Digit(last) && DigitValue(last) == n % 10;
    if n < 10 {
      assert ds == [last] && ds[..0] == "" && ParseNat("") == 0;
    } else {
      ParseDecimal(n / 10);
      assert ds[..|ds| - 1] == Decimal(n / 10) && ds[|ds| - 1] == last;
    }
  }

  lemma DecimalIsDigits(e: Engine, n: nat)
    ensures AllDigits(e, Decimal(n))
  {
    hide Decimal, ForeignDigit;
    ParseDecimal(n);
  }

  /** In every form a marker cites the number that is printed in it. */
  lemma MarkerCitesItsNumber(f: Form, head: string, n: nat)
    requires f in DEVIATIONS && IsHead(Python, f, head)
    ensures CitedIndices(Normalized(head + Decimal(n) + [Closer(f)])) == [n]
  {
    hide MatchLen, DigitsAt, IsHead, AllDigits, Decimal, ParseNat, CitedIndices, Normalized, Closer;
    ParseDecimal(n);
    DecimalIsDigits(Python, n);
    var m := head + Decimal(n) + [Closer(f)];
    WrittenMatches(Python, f, head, Decimal(n), "");
    assert m + "" == m;
    CitedAlone(f, m);
  }

  /** The forms written out, and what resolves from them. */
  lemma WrittenFormsCite<Chunk>(n: nat, chunks: seq<Chunk>)
    ensures CitedIndices(Normalized("(S" + Decimal(n) + ")")) == [n]
    ensures CitedIndices(Normalized("(s" + Decimal(n) + ")")) == [n]
    ensures CitedIndices(Normalized("[S" + Decimal(n) + "]")) == [n]
    ensures CitedIndices(Normalized("[s" + Decimal(n) + "]")) == [n]
    ensures CitedIndices(Normalized("[source " + Decimal(n) + "]")) == [n]
    ensures CitedIndices(Normalized("[" + Decimal(n) + "]")) == [n]
    ensures Resolved([n], chunks) == if 1 <= n <= |chunks| then [Source(n, chunks[n - 1])] else []
  {
    hide Decimal, CitedIndices, Normalized;
    assert IsHead(Python, Word, "[source ") by {
      assert "[source "[1..7] == "source";
      assert PySpace(' ');
    }
    MarkerCitesItsNumber(Paren, "(S", n);
    MarkerCitesItsNumber(Paren, "(s", n);
    MarkerCitesItsNumber(Bare, "[S", n);
    MarkerCitesItsNumber(Bare, "[s", n);
    MarkerCitesItsNumber(Word, "[source ", n);
    MarkerCitesItsNumber(Number, "[", n);
    assert [n][..0] == [];
  }

  /** Three texts of which the server makes a citation of source 1 and the client prose. */
  lemma SpacingDisagreement()
    ensures var text := "[source\U{1F}1]";
      CitedIndices(Normalized(text)) == [1] && Pills(SplitOnCitations(text)) == []
  {
    hide Rewrite, Markers, Pills, SplitFrom, MatchLen, DigitsAt;
    var text := "[source\U{1F}1]";
    SeparatorMatches(text);
    CitedAlone(Word, text);
    assert PyOnlySpace(text[7]);
    ServerOnlyIsProse(Word, text);
    assert ParseNat("1") == 1;
  }

  lemma SeparatorMatches(text: string)
    requires text == "[source\U{1F}1]"
    ensures MatchLen(Python, Word, text) == 10 && DigitsAt(Python, Word, text) == "1"
  {
    assert !CommonSpace('1');
    hide ForeignDigit, CommonSpace;
    assert text[7..][0] == '\U{1F}' && text[7..][1] == '1';
    RunIs(PySpace, text[7..], 1);
    assert HeadLen(Python, Word, text) == 8;
    assert text[8..][0] == '1' && text[8..][1] == ']';
    assert !ForeignDigit(']');
    RunIs(PyDigit, text[8..], 1);
    hide HeadLen, Run;
    assert text[9] == ']' == Closer(Word) && DigitOf(Python) == PyDigit;
    MatchParts(Python, Word, text, 8, 1);
    assert text[8..][..1] == "1";
  }

  /** An Arabic digit. */
  lemma DigitDisagreement()
    ensures var text := "[\U{661}]";
      CitedIndices(Normalized(text)) == [1] && Pills(SplitOnCitations(text)) == []
  {
    hide Rewrite, Markers, Pills, SplitFrom, MatchLen, DigitsAt;
    var text := "[\U{661}]";
    assert ForeignDigit('\U{661}') && DigitValue('\U{661}') == 1;
    hide ForeignDigit, DigitValue;
    ForeignDigitMatches(text);
    CitedAlone(Number, text);
    assert ServerOnly(text[1]);
    ServerOnlyIsProse(Number, text);
    assert "\U{661}"[..0] == "";
    assert ParseNat("\U{661}") == 1;
  }

  lemma ForeignDigitMatches(text: string)
    requires text == "[\U{661}]" && ForeignDigit('\U{661}')
    ensures MatchLen(Python, Number, text) == 3 && DigitsAt(Python, Number, text) == "\U{661}"
  {
    hide ForeignDigit;
    assert HeadLen(Python, Number, text) == 1;
    assert text[1..][0] == '\U{661}' && text[1..][1] == ']';
    assert !ForeignDigit(']');
    RunIs(PyDigit, text[1..], 1);
    hide HeadLen, Run;
    MatchParts(Python, Number, text, 1, 1);
    assert text[1..][..1] == "\U{661}";
  }

  /** A long s, which Python matches with s when it ignores case. */
  lemma LetterDisagreement()
    ensures var text := "(\U{17F}1)";
      CitedIndices(Normalized(text)) == [1] && Pills(SplitOnCitations(text)) == []
  {
    hide Rewrite, Markers, Pills, SplitFrom, MatchLen, DigitsAt, ForeignDigit;
    var text := "(\U{17F}1)";
    LongSMatches(text);
    CitedAlone(Paren, text);
    assert ServerOnly(text[1]);
    ServerOnlyIsProse(Paren, text);
    assert ParseNat("1") == 1;
  }

  lemma LongSMatches(text: string)
    requires text == "(\U{17F}1)"
    ensures MatchLen(Python, Paren, text) == 4 && DigitsAt(Python, Paren, text) == "1"
  {
    hide ForeignDigit;
    assert HeadLen(Python, Paren, text) == 2;
    assert text[2..][0] == '1' && text[2..][1] == ')';
    assert !ForeignDigit(')');
    RunIs(PyDigit, text[2..], 1);
    hide HeadLen, Run;
    MatchParts(Python, Paren, text, 2, 1);
    assert text[2..][..1] == "1";
  }

  /** Running the passes on text that went through them already changes nothing, in whatever order they run. */
  lemma NormalizeIdempotent(text: string)
    ensures Normalized(Normalized(text)) == Normalized(text)
  {
    PassesFuse(Python, DEVIATIONS, DEVIATIONS, text);
    assert DEVIATIONS + DEVIATIONS == DEVIATIONS;
  }

  // ---------------------------------------------------------------- the server's functions

  const PATTERNS: seq<Form> := [Paren, Bare, Word, Number]

  /** Four passes, one per pattern, each over the result of the one before. */
  method NormalizeCitations(text: string) returns (normalized: string)
    ensures normalized == Normalized(text)
  {
    hide Rewrite;
    normalized := text;
    RewriteNothing(Python, text);
    for i := 0 to |PATTERNS|
      invariant normalized == Rewrite(Python, FirstForms(i), text)
    {
      PassesFuse(Python, FirstForms(i), {PATTERNS[i]}, text);
      assert FirstForms(i) + {PATTERNS[i]} == FirstForms(i + 1);
      normalized := Rewrite(Python, {PATTERNS[i]}, normalized);
    }
  }

  ghost function FirstForms(i: nat): (fs: set<Form>)
    requires i <= |PATTERNS|
    ensures fs <= DEVIATIONS
    ensures i == |PATTERNS| ==> fs == DEVIATIONS
  {
    if i == 0 then {} else if i == 1 then {Paren} else if i == 2 then {Paren, Bare}
    else if i == 3 then {Paren, Bare, Word} else DEVIATIONS
  }

  lemma {:induction false} RewriteNothing(e: Engine, s: string)
    ensures Rewrite(e, {}, s) == s
  {
    if s != "" {
      assert FormAt(e, {}, s) == None;
      RewriteNothing(e, s[1..]);
    }
  }

  method ExtractCitedIndices(normalized: string) returns (seen: seq<nat>)
    ensures seen == CitedIndices(normalized)
  {
    seen := [];
    var found := Indices(Python, Markers(Python, {Canonical}, normalized));
    for i := 0 to |found|
      invariant seen == Dedup(found[..i])
    {
      assert found[..i + 1][..i] == found[..i];
      if found[i] !in seen {
        seen := seen + [found[i]];
      }
    }
    assert found[..|found|] == found;
  }

  /** A source as persisted: its number and the chunk it stands for. */
  datatype Source<Chunk> = Source(n: nat, chunk: Chunk)

  function Resolved<Chunk>(cited: seq<nat>, chunks: seq<Chunk>): seq<Source<Chunk>> {
    if cited == [] then []
    else
      var n := cited[|cited| - 1];
      Resolved(cited[..|cited| - 1], chunks) + if 1 <= n <= |chunks| then [Source(n, chunks[n - 1])] else []
  }

  /** Exactly the sources whose number was cited and exists. */
  lemma {:induction false} ResolvedMember<Chunk(!new)>(cited: seq<nat>, chunks: seq<Chunk>, s: Source<Chunk>)
    ensures s in Resolved(cited, chunks) <==> s.n in cited && 1 <= s.n <= |chunks| && s.chunk == chunks[s.n - 1]
  {
    if cited != [] {
      ResolvedMember(cited[..|cited| - 1], chunks, s);
      assert cited == cited[..|cited| - 1] + [cited[|cited| - 1]];
    }
  }

  /** Sources come in the order in which they are cited. */
  lemma {:induction false} ResolvedAppend<Chunk>(a: seq<nat>, b: seq<nat>, chunks: seq<Chunk>)
    ensures Resolved(a + b, chunks) == Resolved(a, chunks) + Resolved(b, chunks)
  {
    if b == [] {
      assert a + b == a;
    } else {
      assert (a + b)[..|a + b| - 1] == a + b[..|b| - 1];
      ResolvedAppend(a, b[..|b| - 1], chunks);
    }
  }

  method ResolveCitations<Chunk>(normalized: string, chunks: seq<Chunk>) returns (sources: seq<Source<Chunk>>)
    ensures sources == Resolved(CitedIndices(normalized), chunks)
  {
    hide CitedIndices;
    var cited := ExtractCitedIndices(normalized);
    sources := [];
    for i := 0 to |cited|
      invariant sources == Resolved(cited[..i], chunks)
    {
      assert cited[..i + 1][..i] == cited[..i];
      var idx := cited[i] as int - 1;
      if 0 <= idx < |chunks| {
        sources := sources + [Source(cited[i], chunks[idx])];
      }
    }
    assert cited[..|cited|] == cited;
  }
}
