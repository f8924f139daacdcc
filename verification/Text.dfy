/** Characters and strings, as Python and JavaScript see them. */
module Text {

  datatype Option<+T> = None | Some(value: T)

  /** White space both languages agree on: TAB to CR, SPACE and the Unicode space separators. */
  predicate CommonSpace(c: char) {
    var n := c as int;
    9 <= n <= 13 || n == 32 || n == 0xA0 || n == 0x1680 || 0x2000 <= n <= 0x200A ||
    n == 0x2028 || n == 0x2029 || n == 0x202F || n == 0x205F || n == 0x3000
  }

  /** Python only: the four separator control characters and NEXT LINE. */
  predicate PyOnlySpace(c: char) {
    var n := c as int;
    0x1C <= n <= 0x1F || n == 0x85
  }

  /** JavaScript only: the byte order mark. */
  predicate JsOnlySpace(c: char) {
    c as int == 0xFEFF
  }

  /** `str.isspace`, and `\s` in a Python pattern. */
  predicate PySpace(c: char) {
    CommonSpace(c) || PyOnlySpace(c)
  }

  /** `\s` in a JavaScript pattern, and what `trim` removes. */
  predicate JsSpace(c: char) {
    CommonSpace(c) || JsOnlySpace(c)
  }

  /** `\d` in a JavaScript pattern. */
  predicate Digit(c: char) {
    '0' <= c <= '9'
  }

  /**
   The last code point up to `n` that begins a block of ten decimal digits beyond ASCII, by the
   general category Nd of Unicode 15.0.
   */
  function ZeroBelow(n: int): int {
    if n < 0xFF10 then LowZero(n) else HighZero(n)
  }

  function LowZero(n: int): int {
    if n < 0x6F0 then 0x660 else if n < 0x7C0 then 0x6F0 else if n < 0x966 then 0x7C0 else
    if n < 0x9E6 then 0x966 else if n < 0xA66 then 0x9E6 else if n < 0xAE6 then 0xA66 else
    if n < 0xB66 then 0xAE6 else if n < 0xBE6 then 0xB66 else if n < 0xC66 then 0xBE6 else
    if n < 0xCE6 then 0xC66 else if n < 0xD66 then 0xCE6 else if n < 0xDE6 then 0xD66 else
    if n < 0xE50 then 0xDE6 else if n < 0xED0 then 0xE50 else if n < 0xF20 then 0xED0 else
    if n < 0x1040 then 0xF20 else if n < 0x1090 then 0x1040 else if n < 0x17E0 then 0x1090 else
    if n < 0x1810 then 0x17E0 else if n < 0x1946 then 0x1810 else if n < 0x19D0 then 0x1946 else
    if n < 0x1A80 then 0x19D0 else if n < 0x1A90 then 0x1A80 else if n < 0x1B50 then 0x1A90 else
    if n < 0x1BB0 then 0x1B50 else if n < 0x1C40 then 0x1BB0 else if n < 0x1C50 then 0x1C40 else
    if n < 0xA620 then 0x1C50 else if n < 0xA8D0 then 0xA620 else if n < 0xA900 then 0xA8D0 else
    if n < 0xA9D0 then 0xA900 else if n < 0xA9F0 then 0xA9D0 else if n < 0xAA50 then 0xA9F0 else
    if n < 0xABF0 then 0xAA50 else 0xABF0
  }

  function HighZero(n: int): int {
    if n < 0x104A0 then 0xFF10 else if n < 0x10D30 then 0x104A0 else if n < 0x11066 then 0x10D30 else
    if n < 0x110F0 then 0x11066 else if n < 0x11136 then 0x110F0 else if n < 0x111D0 then 0x11136 else
    if n < 0x112F0 then 0x111D0 else if n < 0x11450 then 0x112F0 else if n < 0x114D0 then 0x11450 else
    if n < 0x11650 then 0x114D0 else if n < 0x116C0 then 0x11650 else if n < 0x11730 then 0x116C0 else
    if n < 0x118E0 then 0x11730 else if n < 0x11950 then 0x118E0 else if n < 0x11C50 then 0x11950 else
    if n < 0x11D50 then 0x11C50 else if n < 0x11DA0 then 0x11D50 else if n < 0x11F50 then 0x11DA0 else
    if n < 0x16A60 then 0x11F50 else if n < 0x16AC0 then 0x16A60 else if n < 0x16B50 then 0x16AC0 else
    if n < 0x1D7CE then 0x16B50 else if n < 0x1D7D8 then 0x1D7CE else if n < 0x1D7E2 then 0x1D7D8 else
    if n < 0x1D7EC then 0x1D7E2 else if n < 0x1D7F6 then 0x1D7EC else if n < 0x1E140 then 0x1D7F6 else
    if n < 0x1E2F0 then 0x1E140 else if n < 0x1E4F0 then 0x1E2F0 else if n < 0x1E950 then 0x1E4F0 else
    if n < 0x1FBF0 then 0x1E950 else 0x1FBF0
  }

  /** A decimal digit for Python only. */
  predicate ForeignDigit(c: char): (r: bool)
    ensures r ==> c as int >= 0x660 && !PySpace(c) && !JsSpace(c)
  {
    0 <= c as int - ZeroBelow(c as int) < 10
  }

  /** `\d` in a Python pattern. */
  predicate PyDigit(c: char) {
    Digit(c) || ForeignDigit(c)
  }

  function DigitValue(c: char): (r: nat)
    ensures r < 10
  {
    if Digit(c) then c as int - '0' as int
    else if ForeignDigit(c) then c as int - ZeroBelow(c as int)
    else 0
  }

  /** How many leading characters of `s` satisfy `p`. */
  function Run(p: char -> bool, s: string): (n: nat)
    ensures n <= |s|
    ensures forall i | 0 <= i < n :: p(s[i])
    ensures n < |s| ==> !p(s[n])
  {
    if s != "" && p(s[0]) then 1 + Run(p, s[1..]) else 0
  }

  /** A run is determined by the first character that ends it. */
  lemma {:induction false} RunIs(p: char -> bool, s: string, n: nat)
    requires n <= |s|
    requires forall i | 0 <= i < n :: p(s[i])
    requires n < |s| ==> !p(s[n])
    ensures Run(p, s) == n
  {
    if s != "" && p(s[0]) {
      RunIs(p, s[1..], n - 1);
    }
  }

  /** The pieces of a list of strings, end to end. */
  function Concat(ss: seq<string>): string {
    if ss == [] then "" else ss[0] + Concat(ss[1..])
  }

  lemma {:induction false} ConcatAppend(xs: seq<string>, ys: seq<string>)
    ensures Concat(xs + ys) == Concat(xs) + Concat(ys)
  {
    if xs == [] {
      assert xs + ys == ys;
    } else {
      assert (xs + ys)[1..] == xs[1..] + ys;
      ConcatAppend(xs[1..], ys);
    }
  }

  lemma ConcatSnoc(xs: seq<string>, y: string)
    ensures Concat(xs + [y]) == Concat(xs) + y
  {
    ConcatAppend(xs, [y]);
    assert [y][1..] == [];
  }

  /** Text on one line. */
  predicate OneLine(s: string) {
    forall i | 0 <= i < |s| :: s[i] != '\n'
  }

  predicate StartsWith(s: string, prefix: string) {
    prefix <= s
  }

  function TrimStart(s: string): string {
    if s != "" && JsSpace(s[0]) then TrimStart(s[1..]) else s
  }

  function TrimEnd(s: string): string {
    if s != "" && JsSpace(s[|s| - 1]) then TrimEnd(s[..|s| - 1]) else s
  }

  function Trim(s: string): string {
    TrimEnd(TrimStart(s))
  }

  predicate Spaces(s: string) {
    forall i | 0 <= i < |s| :: JsSpace(s[i])
  }

  /** Text that `trim` leaves alone. */
  predicate Trimmed(s: string) {
    s != "" ==> !JsSpace(s[0]) && !JsSpace(s[|s| - 1])
  }

  /** Trimming takes off the white space around a text and nothing else. */
  lemma TrimOf(a: string, t: string, b: string)
    requires Spaces(a) && Trimmed(t) && Spaces(b)
    ensures Trim(a + t + b) == t
  {
    hide JsSpace;
    TrimStartOf(a, t + b);
    assert a + (t + b) == a + t + b;
    if t == "" {
      TrimStartOf(b, "");
      assert b + "" == b && t + b == b;
    } else {
      assert (t + b)[0] == t[0];
      TrimEndOf(t, b);
    }
  }

  lemma {:induction false} TrimStartOf(a: string, rest: string)
    requires Spaces(a)
    ensures TrimStart(a + rest) == TrimStart(rest)
  {
    hide JsSpace;
    if a == "" {
      assert a + rest == rest;
    } else {
      assert (a + rest)[1..] == a[1..] + rest;
      TrimStartOf(a[1..], rest);
    }
  }

  lemma {:induction false} TrimEndOf(t: string, b: string)
    requires Spaces(b) && t != "" && !JsSpace(t[|t| - 1])
    ensures TrimEnd(t + b) == t
  {
    hide JsSpace;
    if b == "" {
      assert t + b == t;
    } else {
      assert (t + b)[..|t + b| - 1] == t + b[..|b| - 1];
      TrimEndOf(t, b[..|b| - 1]);
    }
  }

  /** Every text is its trimmed form with white space around it. */
  lemma {:induction false} TrimSplits(s: string) returns (a: string, b: string)
    ensures Spaces(a) && Spaces(b) && Trimmed(Trim(s)) && s == a + Trim(s) + b
    decreases |s|
  {
    hide JsSpace;
    if s == "" {
      a, b := "", "";
    } else if JsSpace(s[0]) {
      a, b := TrimSplits(s[1..]);
      a := [s[0]] + a;
      assert s == [s[0]] + s[1..];
    } else {
      a := "";
      b := EndSplits(s);
    }
  }

  lemma {:induction false} EndSplits(s: string) returns (b: string)
    requires s != "" && !JsSpace(s[0])
    ensures Spaces(b) && s == TrimEnd(s) + b && TrimEnd(s) != "" && TrimEnd(s)[0] == s[0]
    ensures !JsSpace(TrimEnd(s)[|TrimEnd(s)| - 1])
    decreases |s|
  {
    hide JsSpace;
    b := "";
    if JsSpace(s[|s| - 1]) {
      b := EndSplits(s[..|s| - 1]);
      b := b + [s[|s| - 1]];
      assert s == s[..|s| - 1] + [s[|s| - 1]];
    }
  }

  /** `split("\n")`. */
  function Lines(s: string): (ls: seq<string>)
    ensures ls != []
  {
    if s == "" then [""]
    else
      var rest := Lines(s[1..]);
      if s[0] == '\n' then [""] + rest else [[s[0]] + rest[0]] + rest[1..]
  }

  /** `sep.join(parts)`. */
  function Join(sep: string, parts: seq<string>): string {
    if parts == [] then ""
    else if |parts| == 1 then parts[0]
    else parts[0] + sep + Join(sep, parts[1..])
  }

  lemma {:induction false} LinesOfLine(a: string)
    requires OneLine(a)
    ensures Lines(a) == [a]
  {
    if a != "" {
      LinesOfLine(a[1..]);
      assert [a[0]] + a[1..] == a && [a[1..]][1..] == [];
    }
  }

  /** Putting a newline between two texts puts their lines one after the other. */
  lemma {:induction false} LinesJoin(a: string, b: string)
    ensures Lines(a + "\n" + b) == Lines(a) + Lines(b)
  {
    if a == "" {
      LinesCons('\n', b);
      assert "" + "\n" + b == ['\n'] + b;
    } else {
      hide Lines, Prepend;
      var rest := a[1..] + "\n" + b;
      LinesJoin(a[1..], b);
      assert a + "\n" + b == [a[0]] + rest;
      assert a == [a[0]] + a[1..];
      LinesCons(a[0], rest);
      LinesCons(a[0], a[1..]);
      PrependAppend(a[0], Lines(a[1..]), Lines(b));
    }
  }

  /** A character in front of a text whose lines are `ls`. */
  function Prepend(c: char, ls: seq<string>): seq<string>
    requires ls != []
  {
    if c == '\n' then [""] + ls else [[c] + ls[0]] + ls[1..]
  }

  lemma PrependAppend(c: char, xs: seq<string>, ys: seq<string>)
    requires xs != []
    ensures Prepend(c, xs + ys) == Prepend(c, xs) + ys
  {
  }

  lemma LinesCons(c: char, s: string)
    ensures Lines([c] + s) == Prepend(c, Lines(s))
  {
    assert ([c] + s)[1..] == s;
  }

  /** Splitting at newlines and joining with them undo each other. */
  lemma {:induction false} LinesRejoin(s: string)
    ensures Join("\n", Lines(s)) == s
  {
    if s != "" {
      var rest := Lines(s[1..]);
      LinesRejoin(s[1..]);
      assert s == [s[0]] + s[1..];
      JoinCons(s[0], rest);
    }
  }

  lemma JoinCons(c: char, ls: seq<string>)
    requires ls != []
    ensures Join("\n", if c == '\n' then [""] + ls else [[c] + ls[0]] + ls[1..]) == [c] + Join("\n", ls)
  {
    if c == '\n' {
      assert ([""] + ls)[1..] == ls;
    } else {
      assert ([[c] + ls[0]] + ls[1..])[1..] == ls[1..];
    }
  }

  lemma {:induction false} LinesOfJoin(ls: seq<string>)
    requires ls != [] && forall i | 0 <= i < |ls| :: OneLine(ls[i])
    ensures Lines(Join("\n", ls)) == ls
  {
    LinesOfLine(ls[0]);
    if |ls| == 1 {
      assert ls == [ls[0]];
    } else {
      hide Lines;
      LinesOfJoin(ls[1..]);
      LinesJoin(ls[0], Join("\n", ls[1..]));
      assert ls == [ls[0]] + ls[1..];
    }
  }
}
