/**
 The event stream: the server's printer and the client's incremental reader. JSON is a codec
 given by its two functions; the payload type and its values are arbitrary.
 */
module Sse {
  import opened Text

  /** `json.dumps` and `JSON.parse`; a line that does not parse is `None`. */
  datatype Codec<!T> = Codec(dumps: T -> string, parse: string -> Option<T>, isNull: T -> bool)

  /** What the server writes to the stream. */
  datatype Item<T> = Event(name: string, data: T) | Retry(ms: string) | Comment(text: string)

  /** What the client hands to its caller. */
  datatype Frame<T> = Frame(event: string, data: T)

  /**
   What the server relies on: event names are plain words, payloads are objects or arrays (so
   never null) that `dumps` prints on one line and `parse` reads back, and comments are one line.
   */
  ghost predicate Printable<T>(codec: Codec<T>, item: Item<T>) {
    match item
    case Event(name, data) =>
      && OneLine(name) && Trimmed(name)
      && OneLine(codec.dumps(data)) && Trimmed(codec.dumps(data)) && codec.dumps(data) != ""
      && codec.parse(codec.dumps(data)) == Some(data) && !codec.isNull(data)
    case Retry(ms) => OneLine(ms)
    case Comment(text) => OneLine(text)
  }

  /** `sse_event`, `sse_retry` and `sse_comment`, without the blank line that ends a frame. */
  function Body<T>(codec: Codec<T>, item: Item<T>): string {
    match item
    case Event(name, data) => "event: " + name + "\n" + "data: " + codec.dumps(data)
    case Retry(ms) => "retry: " + ms
    case Comment(text) => ": " + text
  }

  function Print<T>(codec: Codec<T>, items: seq<Item<T>>): string {
    if items == [] then "" else Body(codec, items[0]) + "\n\n" + Print(codec, items[1..])
  }

  /** The frames the client should deliver. */
  function Events<T>(items: seq<Item<T>>): seq<Frame<T>> {
    if items == [] then []
    else (match items[0] { case Event(name, data) => [Frame(name, data)] case _ => [] }) + Events(items[1..])
  }

  // ---------------------------------------------------------------- strings, as JavaScript has them

  /** The two characters from `k` on are newlines. */
  predicate BlankAt(s: string, k: int) {
    0 <= k < |s| - 1 && s[k] == '\n' && s[k + 1] == '\n'
  }

  /** `indexOf("\n\n")`: the first blank line, or -1. */
  function IndexOfBlank(s: string): (r: int)
    ensures -1 <= r && (r >= 0 ==> r + 2 <= |s| && BlankAt(s, r))
    ensures forall k | BlankAt(s, k) :: 0 <= r <= k
  {
    if |s| < 2 then -1
    else if s[0] == '\n' && s[1] == '\n' then 0
    else
      var r := IndexOfBlank(s[1..]);
      assert forall k :: BlankAt(s, k) ==> k > 0 && BlankAt(s[1..], k - 1);
      if r < 0 then -1 else r + 1
  }

  // ---------------------------------------------------------------- the reader

  /** The frames completed by `s`, and what is left in the buffer. */
  function Frames(s: string): (r: (seq<string>, string))
    decreases |s|
  {
    var k := IndexOfBlank(s);
    if k < 0 then ([], s)
    else
      var r := Frames(s[k + 2..]);
      ([s[..k]] + r.0, r.1)
  }

  /** The value after the last line that starts with `event:`. */
  function EventOf(lines: seq<string>): string {
    if lines == [] then "message"
    else
      var line := lines[|lines| - 1];
      if StartsWith(line, "event:") then Trim(line[6..]) else EventOf(lines[..|lines| - 1])
  }

  /** The value of the last `data:` line that parses; `event:` lines are not data lines. */
  function DataOf<T>(codec: Codec<T>, lines: seq<string>): Option<T> {
    if lines == [] then None
    else
      var line := lines[|lines| - 1];
      if StartsWith(line, "data:") && codec.parse(Trim(line[5..])).Some? then codec.parse(Trim(line[5..]))
      else DataOf(codec, lines[..|lines| - 1])
  }

  /** The frame is named by its last event line, or else is a message. */
  lemma {:induction false} EventIs(lines: seq<string>, i: nat)
    ensures (forall j | 0 <= j < |lines| :: !StartsWith(lines[j], "event:")) ==> EventOf(lines) == "message"
    ensures i < |lines| && StartsWith(lines[i], "event:") && (forall j | i < j < |lines| :: !StartsWith(lines[j], "event:")) ==>
      EventOf(lines) == Trim(lines[i][6..])
  {
    hide Trim;
    if lines != [] && !StartsWith(lines[|lines| - 1], "event:") {
      EventIs(lines[..|lines| - 1], i);
    }
  }

  /** What a data line carries, when it does and that parses. */
  function Carried<T>(codec: Codec<T>, line: string): Option<T> {
    if StartsWith(line, "data:") then codec.parse(Trim(line[5..])) else None
  }

  /** Its data is what its last data line that parses carries; lines that do not parse are passed over. */
  lemma {:induction false} DataIs<T>(codec: Codec<T>, lines: seq<string>, i: nat)
    ensures (forall j | 0 <= j < |lines| :: Carried(codec, lines[j]) == None) ==> DataOf(codec, lines) == None
    ensures i < |lines| && Carried(codec, lines[i]).Some? && (forall j | i < j < |lines| :: Carried(codec, lines[j]) == None) ==>
      DataOf(codec, lines) == Carried(codec, lines[i])
  {
    if lines != [] {
      var n := |lines| - 1;
      DataOfSnoc(codec, lines);
      hide Carried, DataOf;
      if Carried(codec, lines[n]) == None {
        DataIs(codec, lines[..n], i);
      }
    }
  }

  lemma DataOfSnoc<T>(codec: Codec<T>, lines: seq<string>)
    requires lines != []
    ensures var last := Carried(codec, lines[|lines| - 1]);
      DataOf(codec, lines) == if last.Some? then last else DataOf(codec, lines[..|lines| - 1])
  {
    hide Trim;
  }

  /** What one frame delivers: nothing when it carries no data, or null. */
  function Delivered<T>(codec: Codec<T>, frame: string): seq<Frame<T>> {
    var lines := Lines(frame);
    match DataOf(codec, lines)
    case Some(data) => if codec.isNull(data) then [] else [Frame(EventOf(lines), data)]
    case None => []
  }

  /** A frame delivers one event, with the data of its last data line that parses, unless there is none or that is null. */
  lemma FrameDelivers<T>(codec: Codec<T>, frame: string, i: nat)
    ensures var lines := Lines(frame);
      (forall j | 0 <= j < |lines| :: Carried(codec, lines[j]) == None) ==> Delivered(codec, frame) == []
    ensures var lines := Lines(frame);
      i < |lines| && Carried(codec, lines[i]).Some? && (forall j | i < j < |lines| :: Carried(codec, lines[j]) == None) ==>
        var value := Carried(codec, lines[i]).value;
        |Delivered(codec, frame)| == (if codec.isNull(value) then 0 else 1)
        && forall f | f in Delivered(codec, frame) :: f.data == value && f.event == EventOf(lines)
  {
    hide Lines, Carried, DataOf, EventOf;
    DataIs(codec, Lines(frame), i);
  }

  function DeliveredAll<T>(codec: Codec<T>, frames: seq<string>): seq<Frame<T>> {
    if frames == [] then [] else Delivered(codec, frames[0]) + DeliveredAll(codec, frames[1..])
  }

  method ParseFrame<T>(codec: Codec<T>, frame: string) returns (event: string, data: Option<T>)
    ensures event == EventOf(Lines(frame)) && data == DataOf(codec, Lines(frame))
  {
    event, data := "message", None;
    var lines := Lines(frame);
    for i := 0 to |lines|
      invariant event == EventOf(lines[..i]) && data == DataOf(codec, lines[..i])
    {
      assert lines[..i + 1][..i] == lines[..i];
      var line := lines[i];
      assert "event:"[0] == 'e' && "data:"[0] == 'd';
      if StartsWith(line, "event:") {
        event := Trim(line[6..]);
      } else if StartsWith(line, "data:") {
        match codec.parse(Trim(line[5..])) {
          case Some(value) => data := Some(value);
          case None =>
        }
      }
    }
    assert lines[..|lines|] == lines;
  }

  /** Takes the completed frames out of the buffer and delivers those that carry data. */
  method Drain<T>(codec: Codec<T>, buf0: string, delivered0: seq<Frame<T>>)
    returns (buf: string, delivered: seq<Frame<T>>)
    ensures delivered == delivered0 + DeliveredAll(codec, Frames(buf0).0)
    ensures buf == Frames(buf0).1
  {
    hide Lines, DataOf, EventOf, Frames, DeliveredAll, IndexOfBlank, BlankAt;
    buf, delivered := buf0, delivered0;
    var idx := IndexOfBlank(buf);
    while idx != -1
      invariant idx == IndexOfBlank(buf)
      invariant delivered + DeliveredAll(codec, Frames(buf).0) == delivered0 + DeliveredAll(codec, Frames(buf0).0)
      invariant Frames(buf).1 == Frames(buf0).1
      decreases |buf|
    {
      FramesUnfold(codec, buf);
      var frame := buf[..idx];
      buf := buf[idx + 2..];
      var event, data := ParseFrame(codec, frame);
      if data.Some? && !codec.isNull(data.value) {
        delivered := delivered + [Frame(event, data.value)];
      }
      idx := IndexOfBlank(buf);
    }
    NoneComplete(codec, buf);
  }

  lemma NoneComplete<T>(codec: Codec<T>, buf: string)
    requires IndexOfBlank(buf) == -1
    ensures DeliveredAll(codec, Frames(buf).0) == [] && Frames(buf).1 == buf
  {
  }

  lemma FramesUnfold<T>(codec: Codec<T>, buf: string)
    requires IndexOfBlank(buf) >= 0
    ensures
      var k := IndexOfBlank(buf);
      && Frames(buf).1 == Frames(buf[k + 2..]).1
      && DeliveredAll(codec, Frames(buf).0) == Delivered(codec, buf[..k]) + DeliveredAll(codec, Frames(buf[k + 2..]).0)
  {
    hide Delivered;
    var k := IndexOfBlank(buf);
    assert Frames(buf).0[1..] == Frames(buf[k + 2..]).0;
  }

  /** Reads chunk after chunk, delivering every frame as soon as its blank line has arrived. */
  method StreamSse<T>(codec: Codec<T>, chunks: seq<string>) returns (delivered: seq<Frame<T>>, buf: string)
    ensures delivered == DeliveredAll(codec, Frames(Concat(chunks)).0)
    ensures buf == Frames(Concat(chunks)).1
  {
    hide Frames, DeliveredAll, Concat;
    delivered, buf := [], "";
    NothingRead(codec);
    for i := 0 to |chunks|
      invariant delivered == DeliveredAll(codec, Frames(Concat(chunks[..i])).0)
      invariant buf == Frames(Concat(chunks[..i])).1
    {
      assert chunks[..i + 1] == chunks[..i] + [chunks[i]];
      ConcatSnoc(chunks[..i], chunks[i]);
      ghost var before := Concat(chunks[..i]);
      FramesContinue(before, chunks[i]);
      DeliveredAppend(codec, Frames(before).0, Frames(buf + chunks[i]).0);
      buf, delivered := Drain(codec, buf + chunks[i], delivered);
    }
    assert chunks[..|chunks|] == chunks;
  }

  lemma NothingRead<T>(codec: Codec<T>)
    ensures DeliveredAll(codec, Frames(Concat([])).0) == [] && Frames(Concat([])).1 == ""
  {
  }

  // ---------------------------------------------------------------- chunking does not matter

  lemma BlankStays(s: string, t: string)
    requires IndexOfBlank(s) >= 0
    ensures IndexOfBlank(s + t) == IndexOfBlank(s)
  {
    hide IndexOfBlank;
    var k, r := IndexOfBlank(s), IndexOfBlank(s + t);
    assert BlankAt(s + t, k) && BlankAt(s, r);
  }

  /** Reading `t` after `s` continues from the buffer `s` left. */
  lemma {:induction false} FramesContinue(s: string, t: string)
    ensures Frames(s + t).0 == Frames(s).0 + Frames(Frames(s).1 + t).0
    ensures Frames(s + t).1 == Frames(Frames(s).1 + t).1
    decreases |s|
  {
    hide IndexOfBlank, BlankAt;
    var k := IndexOfBlank(s);
    if k >= 0 {
      var head, rest := s[..k], s[k + 2..];
      BlankStays(s, t);
      assert (s + t)[k + 2..] == rest + t && (s + t)[..k] == head;
      FramesContinue(rest, t);
      calc {
        Frames(s + t).0;
        [head] + Frames(rest + t).0;
        [head] + (Frames(rest).0 + Frames(Frames(rest).1 + t).0);
        ([head] + Frames(rest).0) + Frames(Frames(rest).1 + t).0;
        Frames(s).0 + Frames(Frames(s).1 + t).0;
      }
    }
  }

  function Reframed(frames: seq<string>): string {
    if frames == [] then "" else frames[0] + "\n\n" + Reframed(frames[1..])
  }

  /** The frames are the text cut at its blank lines: nothing is lost, and no frame and no rest has a blank line in it. */
  lemma {:induction false} FramesReassemble(s: string)
    ensures Reframed(Frames(s).0) + Frames(s).1 == s && IndexOfBlank(Frames(s).1) == -1
    ensures forall f | f in Frames(s).0 :: IndexOfBlank(f) == -1
    decreases |s|
  {
    hide IndexOfBlank;
    var k := IndexOfBlank(s);
    if k < 0 {
      assert "" + s == s;
    } else {
      var f, rest := s[..k], s[k + 2..];
      FramesReassemble(rest);
      assert Frames(s).0[1..] == Frames(rest).0;
      assert s == f + "\n\n" + rest;
      assert f + "\n\n" + (Reframed(Frames(rest).0) + Frames(rest).1) == (f + "\n\n" + Reframed(Frames(rest).0)) + Frames(rest).1;
      FirstHasNone(s, k);
    }
  }

  lemma FirstHasNone(s: string, k: nat)
    requires k == IndexOfBlank(s)
    ensures IndexOfBlank(s[..k]) == -1
  {
    hide IndexOfBlank, BlankAt;
    var r := IndexOfBlank(s[..k]);
    if r >= 0 {
      BlankOfPrefix(s, k, r);
    }
  }

  lemma BlankOfPrefix(s: string, k: nat, r: int)
    requires k <= |s| && BlankAt(s[..k], r)
    ensures BlankAt(s, r) && r < k
  {
  }

  lemma {:induction false} DeliveredAppend<T>(codec: Codec<T>, xs: seq<string>, ys: seq<string>)
    ensures DeliveredAll(codec, xs + ys) == DeliveredAll(codec, xs) + DeliveredAll(codec, ys)
  {
    hide Delivered;
    if xs == [] {
      assert xs + ys == ys;
    } else {
      assert (xs + ys)[1..] == xs[1..] + ys;
      DeliveredAppend(codec, xs[1..], ys);
    }
  }

  // ---------------------------------------------------------------- printing and reading back

  lemma TrimPadded(s: string)
    requires Trimmed(s)
    ensures Trim(" " + s) == s
  {
    TrimOf(" ", s, "");
    assert " " + s + "" == " " + s;
  }

  lemma BodyIsOneFrame<T>(codec: Codec<T>, item: Item<T>)
    requires Printable(codec, item)
    ensures var b := Body(codec, item);
      b != "" && b[|b| - 1] != '\n' && forall k :: !BlankAt(b, k)
  {
    match item {
      case Event(name, data) =>
        var b, h, d := Body(codec, item), "event: " + name, "data: " + codec.dumps(data);
        assert OneLine(h) && OneLine(d) && b == h + "\n" + d;
        assert b[|b| - 1] == d[|d| - 1];
        assert forall k | 0 <= k < |h| :: b[k] == h[k];
        assert forall k | 0 <= k < |d| :: b[|h| + 1 + k] == d[k];
        assert forall k | |h| < k < |b| :: b[k] == d[k - |h| - 1];
      case _ =>
        assert OneLine(Body(codec, item));
    }
  }

  lemma BodyDelivers<T>(codec: Codec<T>, item: Item<T>)
    requires Printable(codec, item)
    ensures Delivered(codec, Body(codec, item)) == Events([item])
  {
    hide Trim, Lines;
    var b := Body(codec, item);
    assert [item][1..] == [];
    match item {
      case Event(name, data) =>
        var h, d := "event: " + name, "data: " + codec.dumps(data);
        LinesOfLine(h);
        LinesJoin(h, d);
        LinesOfLine(d);
        assert b == h + "\n" + d;
        TrimPadded(name);
        TrimPadded(codec.dumps(data));
        assert h[6..] == " " + name && d[5..] == " " + codec.dumps(data);
        assert h[..6] == "event:" && d[..5] == "data:" && "event:"[0] != d[0];
        assert Lines(b) == [h, d] && [h, d][..1] == [h] && [h][..0] == [""][..0];
        assert EventOf([h, d]) == EventOf([h]) == name;
        assert DataOf(codec, [h, d]) == Some(data);
      case Retry(ms) =>
        LinesOfLine(b);
        assert b[0] == 'r' && "event:"[0] == 'e' && "data:"[0] == 'd' && [b][..0] == [""][..0];
        assert !StartsWith(b, "data:") && DataOf(codec, [b]) == None;
      case Comment(text) =>
        LinesOfLine(b);
        assert b[0] == ':' && "event:"[0] == 'e' && "data:"[0] == 'd' && [b][..0] == [""][..0];
        assert !StartsWith(b, "data:") && DataOf(codec, [b]) == None;
    }
  }

  lemma FirstFrame(b: string, rest: string)
    requires b != "" && b[|b| - 1] != '\n' && forall k :: !BlankAt(b, k)
    ensures Frames(b + "\n\n" + rest) == ([b] + Frames(rest).0, Frames(rest).1)
  {
    hide IndexOfBlank;
    var s := b + "\n\n" + rest;
    assert forall k | 0 <= k < |b| :: s[k] == b[k];
    assert s[|b|] == '\n' && s[|b| + 1] == '\n';
    assert BlankAt(s, |b|);
    assert forall k | k < |b| - 1 :: BlankAt(s, k) ==> BlankAt(b, k);
    assert IndexOfBlank(s) == |b|;
    assert s[|b| + 2..] == rest && s[..|b|] == b;
  }

  /** The events that were printed, in order, and nothing else; the buffer ends up empty. */
  lemma {:induction false} PrintReadsBack<T>(codec: Codec<T>, items: seq<Item<T>>)
    requires forall i | 0 <= i < |items| :: Printable(codec, items[i])
    ensures DeliveredAll(codec, Frames(Print(codec, items)).0) == Events(items)
    ensures Frames(Print(codec, items)).1 == ""
  {
    hide Delivered, Body, Frames, Printable;
    if items == [] {
      NoFrames();
    } else {
      var b := Body(codec, items[0]);
      BodyIsOneFrame(codec, items[0]);
      BodyDelivers(codec, items[0]);
      FirstFrame(b, Print(codec, items[1..]));
      PrintReadsBack(codec, items[1..]);
      DeliveredAppend(codec, [b], Frames(Print(codec, items[1..])).0);
      assert [items[0]][1..] == [] && [b][1..] == [];
    }
  }

  lemma NoFrames()
    ensures Frames("") == ([], "")
  {
  }

  /** However the network cuts the printed text, the client delivers exactly the events, and nothing is left over. */
  method ReadPrinted<T>(codec: Codec<T>, ghost items: seq<Item<T>>, chunks: seq<string>)
    returns (delivered: seq<Frame<T>>, buf: string)
    requires forall i | 0 <= i < |items| :: Printable(codec, items[i])
    requires Concat(chunks) == Print(codec, items)
    ensures delivered == Events(items) && buf == ""
  {
    hide Frames, DeliveredAll, Concat, Printable;
    delivered, buf := StreamSse(codec, chunks);
    PrintReadsBack(codec, items);
  }

  /** A connection that breaks off anywhere has delivered the first so many events, whole and in order. */
  lemma BrokenOffDeliversPrefix<T>(codec: Codec<T>, items: seq<Item<T>>, received: string, lost: string)
    requires forall i | 0 <= i < |items| :: Printable(codec, items[i])
    requires received + lost == Print(codec, items)
    ensures DeliveredAll(codec, Frames(received).0) <= Events(items)
  {
    PrintReadsBack(codec, items);
    FramesContinue(received, lost);
    DeliveredAppend(codec, Frames(received).0, Frames(Frames(received).1 + lost).0);
  }
}
