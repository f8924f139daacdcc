/** The block parser that re-runs on every streamed prefix of an answer. */
module Markdown {
  import opened Text

  datatype Block =
    | Paragraph(lines: seq<string>)
    | Code(lang: string, code: string)
    | List(ordered: bool, items: seq<string>)
    | Table(header: seq<string>, rows: seq<seq<string>>)
    | Heading(level: nat, text: string)

  /** A block and the lines it was made from. */
  datatype Span = Span(block: Block, start: nat, end: nat)

  /** What a line is when a block could start at it. */
  datatype Kind = Blank | Fenced | Headed | Tabled | Listed | Plain

  // ---------------------------------------------------------------- one line, already trimmed

  predicate LangChar(c: char) {
    'a' <= c <= 'z' || 'A' <= c <= 'Z' || Digit(c) || c == '_' || c == '+' || c == '-'
  }

  predicate AllSpace(s: string) {
    Run(JsSpace, s) == |s|
  }

  /** `.` does not match a line terminator. */
  predicate Dots(s: string) {
    forall i | 0 <= i < |s| :: s[i] !in {'\n', '\r', '\U{2028}', '\U{2029}'}
  }

  predicate Hash(c: char) {
    c == '#'
  }

  /** The language of an opening fence. */
  function Fence(t: string): Option<string> {
    if |t| >= 3 && t[..3] == "```" then
      var k := Run(LangChar, t[3..]);
      if AllSpace(t[3 + k..]) then Some(t[3..3 + k]) else None
    else None
  }

  predicate ClosesFence(t: string) {
    |t| >= 3 && t[..3] == "```" && AllSpace(t[3..])
  }

  function HeadingOf(t: string): Option<(nat, string)> {
    var h := Run(Hash, t);
    var w := Run(JsSpace, t[h..]);
    if 1 <= h <= 3 && w > 0 && Dots(t[h + w..]) then Some((h, t[h + w..])) else None
  }

  /** Whether the item is numbered, and its text. */
  function ListItem(t: string): Option<(bool, string)> {
    var d := Run(Digit, t);
    var m := if t != "" && (t[0] == '-' || t[0] == '*') then 1
             else if d > 0 && d < |t| && t[d] == '.' then d + 1
             else 0;
    var w := Run(JsSpace, t[m..]);
    if m > 0 && w > 0 && Dots(t[m + w..]) then Some((d > 0, t[m + w..])) else None
  }

  predicate TableRow(t: string) {
    t != "" && t[0] == '|'
  }

  /** Only white space, colons, bars and dashes, with a dash among them. */
  predicate Separator(t: string) {
    '-' in t && forall i | 0 <= i < |t| :: JsSpace(t[i]) || t[i] in {':', '|', '-'}
  }

  function SplitBars(s: string): (r: seq<string>)
    ensures r != []
  {
    if s == "" then [""]
    else
      var rest := SplitBars(s[1..]);
      if s[0] == '|' then [""] + rest else [[s[0]] + rest[0]] + rest[1..]
  }

  /** The cells of a row, without its outer bars. */
  function Cells(t: string): seq<string> {
    var s := if t != "" && t[0] == '|' then t[1..] else t;
    var u := if s != "" && s[|s| - 1] == '|' then s[..|s| - 1] else s;
    var parts := SplitBars(u);
    seq(|parts|, i requires 0 <= i < |parts| => Trim(parts[i]))
  }

  // ---------------------------------------------------------------- the specification

  predicate StartsTable(lines: seq<string>, i: nat)
    requires i < |lines|
  {
    TableRow(Trim(lines[i])) && i + 1 < |lines| && Separator(Trim(lines[i + 1]))
  }

  function KindAt(lines: seq<string>, i: nat): Kind
    requires i < |lines|
  {
    var t := Trim(lines[i]);
    if t == "" then Blank
    else if Fence(t).Some? then Fenced
    else if HeadingOf(t).Some? then Headed
    else if StartsTable(lines, i) then Tabled
    else if ListItem(t).Some? then Listed
    else Plain
  }

  /** Whether a block of this kind takes line `j` as one more of its lines. */
  predicate Continues(kind: Kind, lines: seq<string>, j: nat)
    requires j < |lines|
  {
    var t := Trim(lines[j]);
    match kind
    case Fenced => !ClosesFence(t)
    case Tabled => TableRow(t)
    case Listed => ListItem(t).Some?
    case Plain => KindAt(lines, j) == Plain
    case _ => false
  }

  /** The first line from `j` on that does not continue the block, or the number of lines. */
  function StopAt(kind: Kind, lines: seq<string>, j: nat): (k: nat)
    requires j <= |lines|
    ensures j <= k <= |lines|
    ensures forall m | j <= m < k :: Continues(kind, lines, m)
    ensures k < |lines| ==> !Continues(kind, lines, k)
    decreases |lines| - j
  {
    if j < |lines| && Continues(kind, lines, j) then StopAt(kind, lines, j + 1) else j
  }

  /** Where the lines of the block that starts at `i` end. */
  function EndAt(lines: seq<string>, i: nat): (e: nat)
    requires i < |lines| && KindAt(lines, i) != Blank
    ensures i < e <= |lines|
  {
    var kind := KindAt(lines, i);
    if kind == Headed then i + 1
    else if kind == Fenced then
      var f := StopAt(Fenced, lines, i + 1);
      if f < |lines| then f + 1 else f
    else StopAt(kind, lines, i)
  }

  function ItemTexts(lines: seq<string>, from: nat, to: nat): seq<string>
    requires from <= to <= |lines| && forall m | from <= m < to :: Continues(Listed, lines, m)
  {
    seq(to - from, k requires 0 <= k < to - from =>
      assert Continues(Listed, lines, from + k);
      ListItem(Trim(lines[from + k])).value.1)
  }

  function RowCells(lines: seq<string>, from: nat, to: nat): seq<seq<string>>
    requires from <= to <= |lines|
  {
    seq(to - from, k requires 0 <= k < to - from => Cells(Trim(lines[from + k])))
  }

  function Drop<T>(xs: seq<T>, n: nat): seq<T> {
    if n <= |xs| then xs[n..] else []
  }

  function BlockAt(lines: seq<string>, i: nat): Block
    requires i < |lines| && KindAt(lines, i) != Blank
  {
    var t, kind, e := Trim(lines[i]), KindAt(lines, i), EndAt(lines, i);
    match kind
    case Fenced =>
      var lang := Fence(t).value;
      Code(if lang == "" then "code" else lang, Join("\n", lines[i + 1..StopAt(Fenced, lines, i + 1)]))
    case Headed => Heading(HeadingOf(t).value.0, HeadingOf(t).value.1)
    case Tabled => Table(Cells(t), Drop(RowCells(lines, i, e), 2))
    case Listed => List(ListItem(t).value.0, ItemTexts(lines, i, e))
    case Plain => Paragraph(lines[i..e])
  }

  function Spans(lines: seq<string>, i: nat): seq<Span>
    requires i <= |lines|
    decreases |lines| - i
  {
    if i == |lines| then []
    else if KindAt(lines, i) == Blank then Spans(lines, i + 1)
    else [Span(BlockAt(lines, i), i, EndAt(lines, i))] + Spans(lines, EndAt(lines, i))
  }

  function BlocksOf(spans: seq<Span>): seq<Block> {
    seq(|spans|, k requires 0 <= k < |spans| => spans[k].block)
  }

  // ---------------------------------------------------------------- lines as they are written

  function Hashes(n: nat): string {
    seq(n, _ => '#')
  }

  /** The rest of a line behind white space. */
  predicate Behind(x: string) {
    Dots(x) && (x != "" ==> !JsSpace(x[0]))
  }

  lemma SpacesThen(w: string, x: string)
    requires w != "" && Spaces(w) && (x != "" ==> !JsSpace(x[0]))
    ensures Run(JsSpace, w + x) == |w| && (w + x)[|w|..] == x
  {
    hide JsSpace;
    RunIs(JsSpace, w + x, |w|);
  }

  lemma AllSpaceIff(s: string)
    ensures AllSpace(s) <==> Spaces(s)
  {
    hide JsSpace;
    if Spaces(s) {
      RunIs(JsSpace, s, |s|);
    }
  }

  lemma HashIsNoSpace()
    ensures !JsSpace('#') && !JsSpace('-') && !JsSpace('*') && !JsSpace('.') && !JsSpace('`') && !JsSpace('|')
    ensures forall c | Digit(c) || LangChar(c) :: !JsSpace(c)
  {
  }

  lemma HeadingWritten(level: nat, w: string, x: string)
    requires 1 <= level <= 3 && w != "" && Spaces(w) && Behind(x)
    ensures HeadingOf(Hashes(level) + w + x) == Some((level, x))
  {
    hide JsSpace;
    HashIsNoSpace();
    var t := Hashes(level) + w + x;
    assert !Hash(w[0]);
    RunIs(Hash, t, level);
    assert t[level..] == w + x;
    SpacesThen(w, x);
    assert t[level + |w|..] == x;
  }

  /** A heading is one to three hashes, white space, and the rest of the line; nothing else is. */
  lemma HeadingIff(t: string, level: nat, x: string)
    ensures HeadingOf(t) == Some((level, x)) <==>
      1 <= level <= 3 && Behind(x) && exists w :: w != "" && Spaces(w) && t == Hashes(level) + w + x
  {
    hide JsSpace;
    if HeadingOf(t) == Some((level, x)) {
      var n := Run(JsSpace, t[level..]);
      var w := t[level..][..n];
      assert t[level..][n..] == t[level + n..];
      assert t[..level] == Hashes(level);
      assert t == t[..level] + w + x;
      assert w != "" && Spaces(w) && t == Hashes(level) + w + x;
    }
    if 1 <= level <= 3 && Behind(x) {
      forall w | w != "" && Spaces(w) && t == Hashes(level) + w + x
        ensures HeadingOf(t) == Some((level, x))
      {
        HeadingWritten(level, w, x);
      }
    }
  }

  /** What marks an item: a dash or a star, or digits and a dot. */
  predicate IsMark(mark: string, ordered: bool) {
    if ordered then |mark| >= 2 && mark[|mark| - 1] == '.' && forall i | 0 <= i < |mark| - 1 :: Digit(mark[i])
    else mark == "-" || mark == "*"
  }

  /** How long the mark of an item is: one character, or the digits and their dot. */
  lemma MarkLen(mark: string, ordered: bool, rest: string)
    requires IsMark(mark, ordered)
    ensures var t := mark + rest;
      && t[0] == mark[0] && (ordered <==> t[0] != '-' && t[0] != '*')
      && Run(Digit, t) == (if ordered then |mark| - 1 else 0) && (ordered ==> t[|mark| - 1] == '.')
  {
    var t := mark + rest;
    assert forall i | 0 <= i < |mark| :: t[i] == mark[i];
    RunIs(Digit, t, if ordered then |mark| - 1 else 0);
  }

  lemma ListItemWritten(mark: string, ordered: bool, w: string, x: string)
    requires IsMark(mark, ordered) && w != "" && Spaces(w) && Behind(x)
    ensures ListItem(mark + w + x) == Some((ordered, x))
  {
    hide JsSpace, Run, Dots, Spaces;
    var t, m := mark + w + x, |mark|;
    assert t == mark + (w + x);
    MarkLen(mark, ordered, w + x);
    SpacesThen(w, x);
    assert t[m..] == w + x && t[m + |w|..] == x;
  }

  lemma ItemParts(t: string, ordered: bool, x: string) returns (mark: string, w: string)
    requires ListItem(t) == Some((ordered, x))
    ensures Behind(x) && IsMark(mark, ordered) && w != "" && Spaces(w) && t == mark + w + x
  {
    hide JsSpace, Dots, Digit;
    var d := Run(Digit, t);
    var m := if t[0] == '-' || t[0] == '*' then 1 else d + 1;
    var n := Run(JsSpace, t[m..]);
    mark, w := t[..m], t[m..][..n];
    MarkOf(t, d, m);
    SpacesOf(t, m, n);
    hide Run, IsMark, Spaces;
  }

  lemma MarkOf(t: string, d: nat, m: nat)
    requires t != "" && d == Run(Digit, t)
    requires if t[0] == '-' || t[0] == '*' then m == 1 else 0 < d < |t| && t[d] == '.' && m == d + 1
    ensures IsMark(t[..m], d > 0)
  {
    assert forall i | 0 <= i < m :: t[..m][i] == t[i];
    if m == 1 {
      assert t[..1] == [t[0]];
    }
  }

  lemma SpacesOf(t: string, m: nat, n: nat)
    requires m <= |t| && n == Run(JsSpace, t[m..])
    ensures Spaces(t[m..][..n]) && m + n <= |t| && t == t[..m] + t[m..][..n] + t[m + n..]
    ensures m + n < |t| ==> !JsSpace(t[m + n..][0])
  {
    hide JsSpace;
    assert m + n < |t| ==> t[m..][n] == t[m + n];
  }

  /** A list item is a mark, white space, and the rest of the line; it is numbered exactly when the mark has digits. */
  lemma ListItemIff(t: string, ordered: bool, x: string)
    ensures ListItem(t) == Some((ordered, x)) <==>
      Behind(x) && exists mark, w :: IsMark(mark, ordered) && w != "" && Spaces(w) && t == mark + w + x
  {
    hide JsSpace;
    if ListItem(t) == Some((ordered, x)) {
      var mark, w := ItemParts(t, ordered, x);
    }
    if Behind(x) {
      forall mark, w | IsMark(mark, ordered) && w != "" && Spaces(w) && t == mark + w + x
        ensures ListItem(t) == Some((ordered, x))
      {
        ListItemWritten(mark, ordered, w, x);
      }
    }
  }

  predicate IsLang(lang: string) {
    forall i | 0 <= i < |lang| :: LangChar(lang[i])
  }

  lemma FenceParts(t: string, lang: string) returns (w: string)
    requires Fence(t) == Some(lang)
    ensures IsLang(lang) && Spaces(w) && t == "```" + lang + w
  {
    hide JsSpace, LangChar, AllSpace, Spaces;
    var u := t[3..];
    w := t[3 + |lang|..];
    AllSpaceIff(w);
    assert t[3..3 + |lang|] == lang;
    assert u[..|lang|] == lang && u[|lang|..] == w && u == u[..|lang|] + u[|lang|..];
    assert t == t[..3] + u && t == "```" + lang + w;
    assert forall i | 0 <= i < |lang| :: lang[i] == u[i];
  }

  lemma FenceWritten(lang: string, w: string)
    requires IsLang(lang) && Spaces(w)
    ensures Fence("```" + lang + w) == Some(lang)
  {
    hide JsSpace, LangChar, AllSpace;
    HashIsNoSpace();
    var t, u := "```" + lang + w, lang + w;
    assert t[3..] == u && t[..3] == "```";
    assert forall i | 0 <= i < |lang| :: u[i] == lang[i];
    assert w != "" ==> !LangChar(w[0]);
    RunIs(LangChar, u, |lang|);
    assert t[3 + |lang|..] == w && t[3..3 + |lang|] == lang;
    AllSpaceIff(w);
  }

  /** An opening fence is three backticks, a language name that may be empty, and white space. */
  lemma FenceIff(t: string, lang: string)
    ensures Fence(t) == Some(lang) <==> IsLang(lang) && exists w :: Spaces(w) && t == "```" + lang + w
  {
    hide Fence, IsLang, Spaces;
    if Fence(t) == Some(lang) {
      var w := FenceParts(t, lang);
    }
    if IsLang(lang) {
      forall w | Spaces(w) && t == "```" + lang + w
        ensures Fence(t) == Some(lang)
      {
        FenceWritten(lang, w);
      }
    }
  }

  /** A closing fence is three backticks and white space. */
  lemma ClosesFenceIff(t: string)
    ensures ClosesFence(t) <==> exists w :: Spaces(w) && t == "```" + w
  {
    hide JsSpace, AllSpace;
    if ClosesFence(t) {
      AllSpaceIff(t[3..]);
      assert Spaces(t[3..]) && t == t[..3] + t[3..];
    }
    forall w | Spaces(w) && t == "```" + w
      ensures ClosesFence(t)
    {
      assert t[3..] == w && t[..3] == "```";
      AllSpaceIff(w);
    }
  }

  /** White space, colons, bars and dashes, in any order and number. */
  predicate Marks(s: string) {
    forall i | 0 <= i < |s| :: JsSpace(s[i]) || s[i] == ':' || s[i] == '|' || s[i] == '-'
  }

  predicate MaybeBar(s: string) {
    s == "" || s == "|"
  }

  lemma SeparatorWritten(l: string, r: string)
    requires Marks(l) && Marks(r)
    ensures Separator(l + "-" + r)
  {
    hide JsSpace;
    assert (l + "-" + r)[|l|] == '-';
  }

  lemma SeparatorParts(t: string, k: nat)
    requires Separator(t) && k < |t|
    ensures Marks(t[..k]) && Marks(t[k + 1..]) && Spaces("")
  {
    hide JsSpace;
  }

  lemma MarksJoin(a: string, m: string, w: string, n: string, z: string)
    requires MaybeBar(a) && Marks(m) && Spaces(w) && Marks(n) && MaybeBar(z)
    ensures Marks(a + m) && Marks(w + n + z)
  {
    hide JsSpace;
  }

  /** A separator row is written as the pattern has it: around one dash, marks, with a bar or none at either end. */
  lemma SeparatorIff(t: string)
    ensures Separator(t) <==>
      exists a, m, w, n, z ::
        MaybeBar(a) && Marks(m) && Spaces(w) && Marks(n) && MaybeBar(z) && t == a + m + "-" + w + n + z
  {
    hide JsSpace, Marks, Spaces;
    if Separator(t) {
      var k :| 0 <= k < |t| && t[k] == '-';
      var l, r := t[..k], t[k + 1..];
      SeparatorParts(t, k);
      assert t == "" + l + "-" + "" + r + "" && MaybeBar("");
    }
    hide Separator;
    forall a, m, w, n, z | MaybeBar(a) && Marks(m) && Spaces(w) && Marks(n) && MaybeBar(z)
        && t == a + m + "-" + w + n + z
      ensures Separator(t)
    {
      MarksJoin(a, m, w, n, z);
      assert t == (a + m) + "-" + (w + n + z);
      SeparatorWritten(a + m, w + n + z);
    }
  }

  predicate NoBar(s: string) {
    '|' !in s
  }

  lemma {:induction false} SplitBarsPlain(a: string)
    requires NoBar(a)
    ensures SplitBars(a) == [a]
  {
    if a != "" {
      SplitBarsPlain(a[1..]);
      assert a == [a[0]] + a[1..] && [a[1..]][1..] == [];
    }
  }

  lemma {:induction false} SplitBarsAt(a: string, b: string)
    requires NoBar(a)
    ensures SplitBars(a + "|" + b) == [a] + SplitBars(b)
  {
    var s := a + "|" + b;
    if a == "" {
      assert s[1..] == b;
    } else {
      SplitBarsAt(a[1..], b);
      assert s[1..] == a[1..] + "|" + b && s[0] == a[0];
      assert ([a[1..]] + SplitBars(b))[1..] == SplitBars(b) && [a[0]] + a[1..] == a;
    }
  }

  lemma {:induction false} SplitBarsOfJoin(cells: seq<string>)
    requires cells != [] && forall i | 0 <= i < |cells| :: NoBar(cells[i])
    ensures SplitBars(Join("|", cells)) == cells
  {
    if |cells| == 1 {
      SplitBarsPlain(cells[0]);
      assert cells == [cells[0]];
    } else {
      SplitBarsOfJoin(cells[1..]);
      SplitBarsAt(cells[0], Join("|", cells[1..]));
      assert cells == [cells[0]] + cells[1..];
    }
  }

  /** The cells of a row written between bars are what stands between them, trimmed. */
  lemma CellsWritten(cells: seq<string>)
    requires cells != [] && forall i | 0 <= i < |cells| :: NoBar(cells[i])
    ensures var r := Cells("|" + Join("|", cells) + "|");
      |r| == |cells| && forall i | 0 <= i < |cells| :: r[i] == Trim(cells[i])
  {
    hide Trim;
    var inner := Join("|", cells);
    var t := "|" + inner + "|";
    assert t[1..] == inner + "|" && (inner + "|")[..|inner|] == inner;
    SplitBarsOfJoin(cells);
  }

  // ---------------------------------------------------------------- what a block holds

  /** At most one kind of line fits, so the order in which the parser asks does not matter. */
  lemma KindIs(lines: seq<string>, i: nat)
    requires i < |lines|
    ensures var t, kind := Trim(lines[i]), KindAt(lines, i);
      && (kind == Blank <==> t == "")
      && (kind == Fenced <==> Fence(t).Some?)
      && (kind == Headed <==> HeadingOf(t).Some?)
      && (kind == Tabled <==> t != "" && t[0] == '|' && i + 1 < |lines| && Separator(Trim(lines[i + 1])))
      && (kind == Listed <==> ListItem(t).Some?)
  {
    hide Trim;
    FirstCharacters(Trim(lines[i]));
    hide Fence, HeadingOf, ListItem;
  }

  lemma FirstCharacters(t: string)
    ensures Fence(t).Some? ==> t != "" && t[0] == '`'
    ensures HeadingOf(t).Some? ==> t != "" && t[0] == '#'
    ensures ListItem(t).Some? ==> t != "" && (t[0] == '-' || t[0] == '*' || Digit(t[0]))
    ensures TableRow(t) ==> t != "" && t[0] == '|'
  {
    if Fence(t).Some? {
      assert t[0] == t[..3][0] == '`';
    }
  }

  /** A heading line by itself is a block. */
  lemma HeadingBlock(lines: seq<string>, i: nat, level: nat, w: string, x: string)
    requires i < |lines| && Trim(lines[i]) == Hashes(level) + w + x
    requires 1 <= level <= 3 && w != "" && Spaces(w) && Behind(x)
    ensures KindAt(lines, i) == Headed && EndAt(lines, i) == i + 1 && BlockAt(lines, i) == Heading(level, x)
  {
    hide Trim, HeadingOf;
    HeadingWritten(level, w, x);
    KindIs(lines, i);
  }

  lemma StopIs(kind: Kind, lines: seq<string>, j: nat)
    requires j <= |lines|
    ensures var e := StopAt(kind, lines, j);
      && (forall m | j <= m < e :: Continues(kind, lines, m)) && (e < |lines| ==> !Continues(kind, lines, e))
      && (j < |lines| && Continues(kind, lines, j) ==> e > j)
  {
    hide Continues;
  }

  /** A code block holds the lines behind its fence up to the first closing fence, or to the end; that fence is taken too. */
  lemma CodeBlock(lines: seq<string>, i: nat, lang: string) returns (f: nat)
    requires i < |lines| && Fence(Trim(lines[i])) == Some(lang)
    ensures KindAt(lines, i) == Fenced
    ensures i < f <= |lines| && (forall m | i < m < f :: !ClosesFence(Trim(lines[m])))
    ensures f < |lines| ==> ClosesFence(Trim(lines[f]))
    ensures EndAt(lines, i) == if f < |lines| then f + 1 else f
    ensures BlockAt(lines, i) == Code(if lang == "" then "code" else lang, Join("\n", lines[i + 1..f]))
  {
    hide Trim, Fence, ClosesFence;
    KindIs(lines, i);
    f := StopAt(Fenced, lines, i + 1);
    forall m | i < m < f
      ensures !ClosesFence(Trim(lines[m]))
    {
      assert Continues(Fenced, lines, m);
    }
  }

  lemma RowsAre(lines: seq<string>, from: nat, to: nat)
    requires from <= to <= |lines|
    ensures var rows := Drop(RowCells(lines, from, to), 2);
      && |rows| == (if to - from >= 2 then to - from - 2 else 0)
      && forall k | 0 <= k < |rows| :: rows[k] == Cells(Trim(lines[from + 2 + k]))
  {
    hide Trim, Cells;
  }

  lemma TableExtent(lines: seq<string>, i: nat)
    requires i < |lines| && KindAt(lines, i) == Tabled
    ensures var e := EndAt(lines, i);
      && (forall m | i <= m < e :: TableRow(Trim(lines[m]))) && (e < |lines| ==> !TableRow(Trim(lines[e])))
  {
    hide Trim, TableRow, KindAt, StopAt;
    var e := EndAt(lines, i);
    StopIs(Tabled, lines, i);
    forall m | i <= m < e
      ensures TableRow(Trim(lines[m]))
    {
      assert Continues(Tabled, lines, m);
    }
  }

  /** A table's header is its first line; its rows are all lines from the third on, cell by cell. */
  lemma TableBlock(lines: seq<string>, i: nat)
    requires i < |lines| && StartsTable(lines, i)
    ensures KindAt(lines, i) == Tabled && BlockAt(lines, i).Table?
    ensures var b, e := BlockAt(lines, i), EndAt(lines, i);
      && (forall m | i <= m < e :: TableRow(Trim(lines[m]))) && (e < |lines| ==> !TableRow(Trim(lines[e])))
      && b.header == Cells(Trim(lines[i])) && |b.rows| == (if e - i >= 2 then e - i - 2 else 0)
      && forall k | 0 <= k < |b.rows| :: b.rows[k] == Cells(Trim(lines[i + 2 + k]))
  {
    KindIs(lines, i);
    hide Trim, Cells, TableRow, Separator, KindAt, StartsTable, Drop, RowCells;
    TableExtent(lines, i);
    var e := EndAt(lines, i);
    hide EndAt;
    RowsAre(lines, i, e);
  }

  /** A list is ordered as its first item is, and holds the texts of all its items. */
  lemma ListBlock(lines: seq<string>, i: nat)
    requires i < |lines| && ListItem(Trim(lines[i])).Some?
    ensures KindAt(lines, i) == Listed && BlockAt(lines, i).List?
    ensures var b, e := BlockAt(lines, i), EndAt(lines, i);
      && (forall m | i <= m < e :: ListItem(Trim(lines[m])).Some?) && (e < |lines| ==> ListItem(Trim(lines[e])).None?)
      && b.ordered == ListItem(Trim(lines[i])).value.0 && |b.items| == e - i
      && forall k | 0 <= k < |b.items| :: ListItem(Trim(lines[i + k])) == Some((ListItem(Trim(lines[i + k])).value.0, b.items[k]))
  {
    hide Trim, ListItem;
    KindIs(lines, i);
    var b, e := BlockAt(lines, i), EndAt(lines, i);
    StopIs(Listed, lines, i);
    forall m | i <= m < e
      ensures ListItem(Trim(lines[m])).Some?
    {
      assert Continues(Listed, lines, m);
    }
    forall k | 0 <= k < |b.items|
      ensures ListItem(Trim(lines[i + k])).Some? && b.items[k] == ListItem(Trim(lines[i + k])).value.1
    {
    }
  }

  /** A paragraph holds its lines as they are, up to a blank one or one that starts another block. */
  lemma ParagraphBlock(lines: seq<string>, i: nat)
    requires i < |lines| && KindAt(lines, i) == Plain
    ensures var e := EndAt(lines, i);
      && BlockAt(lines, i) == Paragraph(lines[i..e])
      && (forall m | i <= m < e :: KindAt(lines, m) == Plain) && (e < |lines| ==> KindAt(lines, e) != Plain)
  {
    hide KindAt;
    var e := EndAt(lines, i);
    StopIs(Plain, lines, i);
    forall m | i <= m < e
      ensures KindAt(lines, m) == Plain
    {
      assert Continues(Plain, lines, m);
    }
  }

  // ---------------------------------------------------------------- every line, once, in order

  predicate IsBlank(line: string) {
    Trim(line) == ""
  }

  ghost predicate Owned(spans: seq<Span>, j: nat) {
    exists k | 0 <= k < |spans| :: spans[k].start <= j < spans[k].end
  }

  /** Spans of `lines[i..]` that follow one another, start at a line with text, and leave out only blank lines. */
  ghost predicate Covers(spans: seq<Span>, lines: seq<string>, i: nat) {
    && (forall k | 0 <= k < |spans| ::
          i <= spans[k].start < spans[k].end <= |lines| && !IsBlank(lines[spans[k].start]))
    && (forall k, m | 0 <= k < m < |spans| :: spans[k].end <= spans[m].start)
    && (forall j | i <= j < |lines| && !IsBlank(lines[j]) :: Owned(spans, j))
  }

  lemma OwnedCons(s: Span, rest: seq<Span>, j: nat)
    ensures Owned([s] + rest, j) <==> s.start <= j < s.end || Owned(rest, j)
  {
    var r := [s] + rest;
    assert r[0] == s;
    if k :| 0 <= k < |rest| && rest[k].start <= j < rest[k].end {
      assert r[k + 1] == rest[k];
    }
    if k :| 0 <= k < |r| && r[k].start <= j < r[k].end {
      assert k > 0 ==> rest[k - 1] == r[k];
    }
  }

  lemma CoversCons(s: Span, rest: seq<Span>, lines: seq<string>)
    requires s.start < s.end <= |lines| && !IsBlank(lines[s.start])
    requires Covers(rest, lines, s.end)
    ensures Covers([s] + rest, lines, s.start)
  {
    hide IsBlank, Owned;
    var r := [s] + rest;
    forall j | s.start <= j < |lines| && !IsBlank(lines[j])
      ensures Owned(r, j)
    {
      OwnedCons(s, rest, j);
    }
  }

  lemma BlankKind(lines: seq<string>, i: nat)
    requires i < |lines|
    ensures KindAt(lines, i) == Blank <==> IsBlank(lines[i])
  {
    hide Trim, Fence, HeadingOf, ListItem, StartsTable;
  }

  /** Every line with text belongs to exactly one block, in order. */
  lemma {:induction false} SpansCover(lines: seq<string>, i: nat)
    requires i <= |lines|
    ensures Covers(Spans(lines, i), lines, i)
    decreases |lines| - i
  {
    hide BlockAt, EndAt, KindAt, IsBlank, Owned;
    if i == |lines| {
      return;
    }
    BlankKind(lines, i);
    if KindAt(lines, i) == Blank {
      SpansCover(lines, i + 1);
    } else {
      var e := EndAt(lines, i);
      SpansCover(lines, e);
      CoversCons(Span(BlockAt(lines, i), i, e), Spans(lines, e), lines);
    }
  }

  // ---------------------------------------------------------------- appended lines

  lemma RowIsNothingElse(t: string)
    requires TableRow(t)
    ensures Fence(t) == None && HeadingOf(t) == None && ListItem(t) == None
  {
  }

  /** Only a line that could be a table's first row changes kind when lines are appended, and only the last one. */
  lemma KindStays(lines: seq<string>, more: seq<string>, i: nat)
    requires i < |lines|
    requires KindAt(lines, i) != Plain || i + 1 < |lines|
    ensures KindAt(lines + more, i) == KindAt(lines, i)
  {
    hide Trim, Fence, HeadingOf, ListItem, Separator;
    if TableRow(Trim(lines[i])) {
      RowIsNothingElse(Trim(lines[i]));
    }
  }

  lemma {:induction false} StopStays(kind: Kind, lines: seq<string>, more: seq<string>, j: nat)
    requires j <= |lines| && StopAt(kind, lines, j) < |lines|
    ensures StopAt(kind, lines + more, j) == StopAt(kind, lines, j)
    decreases |lines| - j
  {
    hide KindAt, Trim, ListItem, ClosesFence, TableRow;
    if Continues(kind, lines, j) {
      if kind == Plain {
        KindStays(lines, more, j);
      }
      StopStays(kind, lines, more, j + 1);
    } else if kind == Plain {
      KindStays(lines, more, j);
    }
  }

  /** The end and the content of a block that is followed by another one are final. */
  lemma EndStays(lines: seq<string>, more: seq<string>, i: nat)
    requires i < |lines| && KindAt(lines, i) != Blank && EndAt(lines, i) < |lines|
    ensures KindAt(lines + more, i) == KindAt(lines, i)
    ensures EndAt(lines + more, i) == EndAt(lines, i)
    ensures KindAt(lines, i) == Fenced ==> StopAt(Fenced, lines + more, i + 1) == StopAt(Fenced, lines, i + 1)
  {
    KindStays(lines, more, i);
    hide KindAt, Continues;
    if KindAt(lines, i) == Fenced {
      StopStays(Fenced, lines, more, i + 1);
    } else if KindAt(lines, i) != Headed {
      StopStays(KindAt(lines, i), lines, more, i);
    }
  }

  lemma PartsStay(lines: seq<string>, more: seq<string>, from: nat, to: nat)
    requires from <= to <= |lines|
    ensures (lines + more)[from..to] == lines[from..to]
    ensures RowCells(lines + more, from, to) == RowCells(lines, from, to)
    ensures (forall m | from <= m < to :: Continues(Listed, lines, m)) ==>
      && (forall m | from <= m < to :: Continues(Listed, lines + more, m))
      && ItemTexts(lines + more, from, to) == ItemTexts(lines, from, to)
  {
    hide Trim, ListItem, Cells, KindAt;
    assert forall m | from <= m < to :: (lines + more)[m] == lines[m];
    if forall m | from <= m < to :: Continues(Listed, lines, m) {
      forall m | from <= m < to
        ensures Continues(Listed, lines + more, m)
      {
        assert Continues(Listed, lines, m);
      }
      assert ItemTexts(lines + more, from, to) == ItemTexts(lines, from, to);
    }
  }

  lemma BlockStays(lines: seq<string>, more: seq<string>, i: nat)
    requires i < |lines| && KindAt(lines, i) != Blank && EndAt(lines, i) < |lines|
    ensures KindAt(lines + more, i) == KindAt(lines, i)
    ensures EndAt(lines + more, i) == EndAt(lines, i)
    ensures BlockAt(lines + more, i) == BlockAt(lines, i)
  {
    EndStays(lines, more, i);
    var kind, e := KindAt(lines, i), EndAt(lines, i);
    assert kind == Listed ==> forall m | i <= m < e :: Continues(Listed, lines, m);
    PartsStay(lines, more, i, e);
    if kind == Fenced {
      PartsStay(lines, more, i + 1, StopAt(Fenced, lines, i + 1));
    }
    hide Trim, Fence, HeadingOf, ListItem, Cells, KindAt, Continues, EndAt, StopAt, RowCells, ItemTexts;
  }

  /** The longer parse agrees with the shorter up to where the last block of the shorter one starts. */
  ghost predicate Agrees(short: seq<Span>, long: seq<Span>) {
    short != [] ==>
      && |short| <= |long| && short[..|short| - 1] == long[..|short| - 1]
      && long[|short| - 1].start == short[|short| - 1].start
  }

  lemma AgreesCons(s: Span, short: seq<Span>, long: seq<Span>)
    requires short != [] && Agrees(short, long)
    ensures Agrees([s] + short, [s] + long)
  {
    var n := |short| - 1;
    assert ([s] + short)[..n + 1] == [s] + short[..n] && ([s] + long)[..n + 1] == [s] + long[..n];
  }

  /** Appending lines leaves every block except the last of the shorter parse as it was. */
  lemma {:induction false} SpansStay(lines: seq<string>, more: seq<string>, i: nat)
    requires i <= |lines|
    ensures Agrees(Spans(lines, i), Spans(lines + more, i))
    decreases |lines| - i
  {
    hide BlockAt, EndAt, KindAt;
    if i == |lines| {
    } else if KindAt(lines, i) == Blank {
      KindStays(lines, more, i);
      SpansStay(lines, more, i + 1);
    } else {
      var e := EndAt(lines, i);
      SpansStay(lines, more, e);
      BlankStays(lines, more, i);
      if Spans(lines, e) != [] {
        BlockStays(lines, more, i);
        AgreesCons(Span(BlockAt(lines, i), i, e), Spans(lines, e), Spans(lines + more, e));
      }
    }
  }

  lemma BlankStays(lines: seq<string>, more: seq<string>, i: nat)
    requires i < |lines|
    ensures KindAt(lines + more, i) == Blank <==> KindAt(lines, i) == Blank
  {
    BlankKind(lines, i);
    BlankKind(lines + more, i);
    hide KindAt, IsBlank;
  }

  function Parse(text: string): seq<Span> {
    Spans(Lines(text), 0)
  }

  /** The same for whole lines arriving behind a text. */
  lemma ParseIsStable(text: string, more: string)
    ensures var short, long := BlocksOf(Parse(text)), BlocksOf(Parse(text + "\n" + more));
      short != [] ==> |short| <= |long| && short[..|short| - 1] == long[..|short| - 1]
  {
    hide Spans, Lines;
    LinesJoin(text, more);
    SpansStay(Lines(text), Lines(more), 0);
    var short, long := Parse(text), Parse(text + "\n" + more);
    if short != [] {
      var n := |short| - 1;
      assert forall k | 0 <= k < n :: short[k] == short[..n][k] == long[..n][k] == long[k];
    }
  }

  /** A table takes its separator row along only when that row starts with a bar; otherwise it is one line long. */
  lemma SeparatorTakenIff(lines: seq<string>, i: nat)
    requires i < |lines| && KindAt(lines, i) == Tabled
    ensures EndAt(lines, i) > i + 1 <==> TableRow(Trim(lines[i + 1]))
    ensures !TableRow(Trim(lines[i + 1])) ==> BlockAt(lines, i) == Table(Cells(Trim(lines[i])), [])
  {
    hide Trim, Fence, HeadingOf, ListItem, Cells;
    assert Continues(Tabled, lines, i);
    assert StopAt(Tabled, lines, i) == StopAt(Tabled, lines, i + 1);
    assert Continues(Tabled, lines, i + 1) <==> TableRow(Trim(lines[i + 1]));
  }

  /** A list goes on with any item that follows, bulleted or numbered, whatever its first item was. */
  lemma ListIgnoresKind(lines: seq<string>, i: nat)
    requires i + 1 < |lines| && KindAt(lines, i) == Listed
    ensures EndAt(lines, i) > i + 1 <==> ListItem(Trim(lines[i + 1])).Some?
  {
    hide Trim, Fence, HeadingOf, ListItem, StartsTable;
    assert Continues(Listed, lines, i);
    assert StopAt(Listed, lines, i) == StopAt(Listed, lines, i + 1);
    assert Continues(Listed, lines, i + 1) <==> ListItem(Trim(lines[i + 1])).Some?;
  }

  // ---------------------------------------------------------------- the parser itself

  lemma SpansStep(lines: seq<string>, i: nat)
    requires i < |lines|
    ensures Trim(lines[i]) == "" <==> KindAt(lines, i) == Blank
    ensures BlocksOf(Spans(lines, i)) ==
      if KindAt(lines, i) == Blank then BlocksOf(Spans(lines, i + 1))
      else [BlockAt(lines, i)] + BlocksOf(Spans(lines, EndAt(lines, i)))
  {
    hide Trim, Fence, HeadingOf, ListItem, StartsTable, BlockAt, StopAt;
  }

  lemma NoSpans(lines: seq<string>)
    ensures BlocksOf(Spans(lines, |lines|)) == []
  {
  }

  method ParseBlocks(text: string) returns (blocks: seq<Block>)
    ensures blocks == BlocksOf(Parse(text))
  {
    hide Trim, Spans, BlocksOf, KindAt, BlockAt, EndAt;
    var lines := Lines(text);
    blocks := [];
    var i := 0;
    while i < |lines|
      invariant 0 <= i <= |lines|
      invariant BlocksOf(Spans(lines, 0)) == blocks + BlocksOf(Spans(lines, i))
      decreases |lines| - i
    {
      SpansStep(lines, i);
      var trimmed := Trim(lines[i]);
      if trimmed == "" {
        i := i + 1;
        continue;
      }
      var block, next := ParseBlock(lines, i);
      blocks := blocks + [block];
      i := next;
    }
    NoSpans(lines);
  }

  /** The branches of the loop: the block that starts at `i`, and where the parser goes on. */
  method ParseBlock(lines: seq<string>, i: nat) returns (block: Block, next: nat)
    requires i < |lines| && Trim(lines[i]) != ""
    ensures block == BlockAt(lines, i) && next == EndAt(lines, i) && i < next <= |lines|
  {
    hide Trim, Fence, HeadingOf, ListItem, Cells, Separator, StopAt, Continues;
    var trimmed := Trim(lines[i]);
    var heading := HeadingOf(trimmed);
    if Fence(trimmed).Some? {
      block, next := ParseCode(lines, i);
    } else if heading.Some? {
      block, next := Heading(heading.value.0, heading.value.1), i + 1;
    } else if StartsTable(lines, i) {
      block, next := ParseTable(lines, i);
    } else if ListItem(trimmed).Some? {
      block, next := ParseList(lines, i);
    } else {
      block, next := ParseParagraph(lines, i);
    }
  }

  /** A fence still open at the last line closes there. */
  method ParseCode(lines: seq<string>, i: nat) returns (block: Block, next: nat)
    requires i < |lines| && KindAt(lines, i) == Fenced
    ensures block == BlockAt(lines, i) && next == EndAt(lines, i)
  {
    hide Trim, HeadingOf, ListItem, Separator;
    var lang := Fence(Trim(lines[i])).value;
    next := i + 1;
    while next < |lines| && !ClosesFence(Trim(lines[next]))
      invariant i < next <= |lines|
      invariant StopAt(Fenced, lines, next) == StopAt(Fenced, lines, i + 1)
    {
      next := next + 1;
    }
    block := Code(if lang == "" then "code" else lang, Join("\n", lines[i + 1..next]));
    if next < |lines| {
      next := next + 1;
    }
  }

  method ParseTable(lines: seq<string>, i: nat) returns (block: Block, next: nat)
    requires i < |lines| && KindAt(lines, i) == Tabled
    ensures block == BlockAt(lines, i) && next == EndAt(lines, i)
  {
    hide Trim, Fence, HeadingOf, ListItem, Cells, Separator;
    var rawRows := [];
    next := i;
    while next < |lines| && TableRow(Trim(lines[next]))
      invariant i <= next <= |lines|
      invariant StopAt(Tabled, lines, next) == StopAt(Tabled, lines, i)
      invariant rawRows == RowCells(lines, i, next)
    {
      rawRows := rawRows + [Cells(Trim(lines[next]))];
      next := next + 1;
    }
    assert Continues(Tabled, lines, i);
    block := Table(rawRows[0], Drop(rawRows, 2));
  }

  method ParseList(lines: seq<string>, i: nat) returns (block: Block, next: nat)
    requires i < |lines| && KindAt(lines, i) == Listed
    ensures block == BlockAt(lines, i) && next == EndAt(lines, i)
  {
    hide Trim, Fence, HeadingOf, ListItem, StartsTable;
    var ordered := ListItem(Trim(lines[i])).value.0;
    var items := [];
    next := i;
    while next < |lines| && ListItem(Trim(lines[next])).Some?
      invariant i <= next <= |lines|
      invariant StopAt(Listed, lines, next) == StopAt(Listed, lines, i)
      invariant forall m | i <= m < next :: Continues(Listed, lines, m)
      invariant items == ItemTexts(lines, i, next)
    {
      assert Continues(Listed, lines, next);
      items := items + [ListItem(Trim(lines[next])).value.1];
      next := next + 1;
    }
    block := List(ordered, items);
  }

  /** Stops at a blank line or at a line that starts another block; never at once. */
  method ParseParagraph(lines: seq<string>, i: nat) returns (block: Block, next: nat)
    requires i < |lines| && KindAt(lines, i) == Plain
    ensures block == BlockAt(lines, i) && next == EndAt(lines, i)
  {
    hide Trim, Fence, HeadingOf, ListItem, StartsTable;
    var para := [];
    next := i;
    while next < |lines|
      invariant i <= next <= |lines|
      invariant StopAt(Plain, lines, next) == StopAt(Plain, lines, i)
      invariant para == lines[i..next]
    {
      var l := Trim(lines[next]);
      if l == "" || Fence(l).Some? || HeadingOf(l).Some? || StartsTable(lines, next) || ListItem(l).Some? {
        break;
      }
      para := para + [lines[next]];
      next := next + 1;
    }
    block := Paragraph(para);
  }
}
