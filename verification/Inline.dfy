/** Inline emphasis: code spans, bold and italics within one piece of answer text. */
module Inline {
  import opened Text

  datatype Token = Plain(content: string) | Code(content: string) | Bold(content: string) | Italic(content: string)

  predicate NotTick(c: char) {
    c != '`'
  }

  predicate NotStar(c: char) {
    c != '*'
  }

  predicate NotStarNorNewline(c: char) {
    c != '*' && c != '\n'
  }

  /** A delimited run at the front of `s`: its content, or None. The delimiter is repeated behind it. */
  function Delimited(open: string, inner: char -> bool, s: string): (r: Option<string>)
    ensures r.Some? ==> r.value != "" && open + r.value + open <= s
  {
    if open <= s then
      var rest := s[|open|..];
      var n := Run(inner, rest);
      if n > 0 && open <= rest[n..] then
        assert s == open + rest[..n] + rest[n..];
        Some(rest[..n])
      else None
    else None
  }

  /** The token the pattern matches at the front of `s`; bold is tried before italic. */
  function StyledAt(s: string): (r: Option<Token>)
    ensures r.Some? ==> !r.value.Plain? && r.value.content != "" && Wrap(r.value) <= s
  {
    match Delimited("`", NotTick, s)
    case Some(c) => Some(Code(c))
    case None =>
      match Delimited("**", NotStar, s)
      case Some(c) => Some(Bold(c))
      case None =>
        match Delimited("*", NotStarNorNewline, s)
        case Some(c) => Some(Italic(c))
        case None => None
  }

  /** A delimited run is found exactly when it stands there: no other content fits between the delimiters. */
  lemma DelimitedIff(open: string, inner: char -> bool, s: string, c: string)
    requires open != "" && !inner(open[0])
    ensures Delimited(open, inner, s) == Some(c) <==>
      c != "" && (forall i | 0 <= i < |c| :: inner(c[i])) && open + c + open <= s
  {
    var k := |open|;
    if c != "" && (forall i | 0 <= i < |c| :: inner(c[i])) && open + c + open <= s {
      var rest := s[k..];
      assert open <= s && c + open <= rest by {
        assert s == open + (c + open) + s[|open + c + open|..];
      }
      assert forall i | 0 <= i < |c| :: rest[i] == c[i];
      assert rest[|c|] == (c + open)[|c|] == open[0];
      RunIs(inner, rest, |c|);
      assert rest[..|c|] == c && open <= rest[|c|..];
    }
  }

  /**
   When each style is found, by the characters: a run between backticks with none inside, one
   between double stars, and one between single stars on one line, with no star inside.
   */
  lemma StyledIff(s: string, c: string)
    ensures StyledAt(s) == Some(Code(c)) <==> c != "" && '`' !in c && "`" + c + "`" <= s
    ensures StyledAt(s) == Some(Bold(c)) <==> c != "" && '*' !in c && "**" + c + "**" <= s
    ensures StyledAt(s) == Some(Italic(c)) <==> c != "" && '*' !in c && '\n' !in c && "*" + c + "*" <= s
  {
    DelimitedIff("`", NotTick, s, c);
    DelimitedIff("**", NotStar, s, c);
    DelimitedIff("*", NotStarNorNewline, s, c);
    FirstDecides("`", NotTick, s);
    FirstDecides("**", NotStar, s);
    FirstDecides("*", NotStarNorNewline, s);
    assert (forall i | 0 <= i < |c| :: NotTick(c[i])) <==> '`' !in c;
    assert (forall i | 0 <= i < |c| :: NotStar(c[i])) <==> '*' !in c;
    assert (forall i | 0 <= i < |c| :: NotStarNorNewline(c[i])) <==> '*' !in c && '\n' !in c;
    hide Delimited;
  }

  /** A delimited run shows in the first characters, so at most one style fits. */
  lemma FirstDecides(open: string, inner: char -> bool, s: string)
    requires open != ""
    ensures Delimited(open, inner, s).Some? ==> |s| > |open| && s[..|open|] == open && inner(s[|open|])
  {
    if Delimited(open, inner, s).Some? {
      assert s[|open|..][0] == s[|open|];
    }
  }

  /** A token as it was written. */
  function Wrap(t: Token): string {
    match t
    case Plain(c) => c
    case Code(c) => "`" + c + "`"
    case Bold(c) => "**" + c + "**"
    case Italic(c) => "*" + c + "*"
  }

  function Written(ts: seq<Token>): string {
    if ts == [] then "" else Wrap(ts[0]) + Written(ts[1..])
  }

  /** `exec` from `last`: where the next match begins, or the length of the text. */
  function NextMatch(text: string, last: nat): (k: nat)
    requires last <= |text|
    ensures last <= k <= |text|
    ensures forall j | last <= j < k :: StyledAt(text[j..]) == None
    ensures k < |text| ==> StyledAt(text[k..]).Some?
    decreases |text| - last
  {
    if last == |text| || StyledAt(text[last..]).Some? then last else NextMatch(text, last + 1)
  }

  /**
   `ts` tokenizes `text` from position `i` on: it spells it out, styled tokens stand exactly where
   the pattern matches, and a text token reaches from one match to the next.
   */
  ghost predicate Tokenizes(ts: seq<Token>, text: string, i: nat)
    requires i <= |text|
    decreases |ts|
  {
    if ts == [] then i == |text|
    else
      var w := Wrap(ts[0]);
      var next := i + |w|;
      && ts[0].content != "" && next <= |text| && text[i..next] == w
      && Tokenizes(ts[1..], text, next)
      && if ts[0].Plain? then
           && (forall j | i <= j < next :: StyledAt(text[j..]) == None)
           && (next < |text| ==> StyledAt(text[next..]).Some?)
         else StyledAt(text[i..]) == Some(ts[0])
  }

  lemma FirstTokenIsUnique(ts: seq<Token>, us: seq<Token>, text: string, i: nat)
    requires i <= |text| && ts != [] && us != [] && Tokenizes(ts, text, i) && Tokenizes(us, text, i)
    ensures ts[0] == us[0]
  {
    hide StyledAt, Tokenizes, Wrap;
    TokenizesHead(ts, text, i);
    TokenizesHead(us, text, i);
    var m, n := i + |Wrap(ts[0])|, i + |Wrap(us[0])|;
    if ts[0].Plain? {
      assert StyledAt(text[i..]) == None;
      assert us[0].Plain?;
      assert m < |text| ==> StyledAt(text[m..]).Some?;
      assert n < |text| ==> StyledAt(text[n..]).Some?;
      assert m == n;
      PlainIsItself(ts[0]);
      PlainIsItself(us[0]);
    }
  }

  lemma PlainIsItself(t: Token)
    requires t.Plain?
    ensures t == Plain(Wrap(t))
  {
  }

  lemma TokenizesHead(ts: seq<Token>, text: string, i: nat)
    requires i <= |text| && ts != [] && Tokenizes(ts, text, i)
    ensures
      var next := i + |Wrap(ts[0])|;
      && i < next <= |text| && text[i..next] == Wrap(ts[0]) && Tokenizes(ts[1..], text, next)
      && if ts[0].Plain? then
           && (forall j | i <= j < next :: StyledAt(text[j..]) == None)
           && (next < |text| ==> StyledAt(text[next..]).Some?)
         else StyledAt(text[i..]) == Some(ts[0])
  {
    hide StyledAt;
  }

  /** There is only one way to tokenize a text. */
  lemma {:induction false} TokenizationIsUnique(ts: seq<Token>, us: seq<Token>, text: string, i: nat)
    requires i <= |text| && Tokenizes(ts, text, i) && Tokenizes(us, text, i)
    ensures ts == us
    decreases |ts|
  {
    hide StyledAt, Wrap;
    if ts == [] || us == [] {
      if ts != [] {
        TokenizesHead(ts, text, i);
      }
      if us != [] {
        TokenizesHead(us, text, i);
      }
    } else {
      FirstTokenIsUnique(ts, us, text, i);
      TokenizationIsUnique(ts[1..], us[1..], text, i + |Wrap(ts[0])|);
      assert ts == [ts[0]] + ts[1..] && us == [us[0]] + us[1..];
    }
  }

  lemma FollowsPlain(ts: seq<Token>, text: string, i: nat)
    requires i <= |text| && Tokenizes(ts, text, i) && |ts| > 1 && ts[0].Plain?
    ensures !ts[1].Plain?
  {
    hide StyledAt;
    var next := i + |Wrap(ts[0])|;
    var rest := ts[1..];
    assert Tokenizes(rest, text, next) && rest[0] == ts[1];
    assert rest[0].content != "" ==> Wrap(rest[0]) != "";
  }

  /** Wrapping the tokens again gives the text back; none is empty and no two text tokens meet. */
  lemma {:induction false} TokensRoundTrip(ts: seq<Token>, text: string, i: nat)
    requires i <= |text| && Tokenizes(ts, text, i)
    ensures Written(ts) == text[i..]
    ensures forall k | 0 <= k < |ts| :: ts[k].content != ""
    ensures forall k | 0 <= k < |ts| - 1 :: !(ts[k].Plain? && ts[k + 1].Plain?)
    decreases |ts|
  {
    hide StyledAt, Wrap;
    if ts != [] {
      var next := i + |Wrap(ts[0])|;
      TokensRoundTrip(ts[1..], text, next);
      assert text[i..next] + text[next..] == text[i..];
      assert forall k | 1 <= k < |ts| :: ts[k] == ts[1..][k - 1];
      if |ts| > 1 && ts[0].Plain? {
        FollowsPlain(ts, text, i);
      }
    }
  }

  /** What the loop pushes from position `last` on. */
  function TokensFrom(text: string, last: nat): seq<Token>
    requires last <= |text|
    decreases |text| - last
  {
    var k := NextMatch(text, last);
    var plain := if k > last then [Plain(text[last..k])] else [];
    if k == |text| then plain
    else
      var t := StyledAt(text[k..]).value;
      plain + [t] + TokensFrom(text, k + |Wrap(t)|)
  }

  /** Putting one more token in front of a tokenization. */
  lemma TokenizesCons(t: Token, rest: seq<Token>, text: string, i: nat)
    requires var next := i + |Wrap(t)|;
      && t.content != "" && next <= |text| && text[i..next] == Wrap(t) && Tokenizes(rest, text, next)
      && if t.Plain? then
           && (forall j | i <= j < next :: StyledAt(text[j..]) == None)
           && (next < |text| ==> StyledAt(text[next..]).Some?)
         else StyledAt(text[i..]) == Some(t)
    ensures Tokenizes([t] + rest, text, i)
  {
    hide StyledAt, Wrap;
    var ts := [t] + rest;
    assert ts[0] == t && ts[1..] == rest;
  }

  lemma {:induction false} TokensFromTokenizes(text: string, last: nat)
    requires last <= |text|
    ensures Tokenizes(TokensFrom(text, last), text, last)
    decreases |text| - last
  {
    hide StyledAt, NextMatch, Tokenizes, Wrap, TokensFrom;
    var k := NextMatch(text, last);
    TokensStep(text, last);
    var after := [];
    NoTokens(text);
    if k < |text| {
      var t := StyledAt(text[k..]).value;
      TokensFromTokenizes(text, k + |Wrap(t)|);
      TokenizesCons(t, TokensFrom(text, k + |Wrap(t)|), text, k);
      after := [t] + TokensFrom(text, k + |Wrap(t)|);
    }
    if k > last {
      var plain := Plain(text[last..k]);
      PlainIsItself(plain);
      TokenizesCons(plain, after, text, last);
      assert TokensFrom(text, last) == [plain] + after;
    } else {
      assert TokensFrom(text, last) == after;
    }
  }

  lemma NoTokens(text: string)
    ensures Tokenizes([], text, |text|)
  {
  }

  /** One turn of the loop: the text up to the next match, then the match. */
  lemma TokensStep(text: string, last: nat)
    requires last <= |text|
    ensures var k := NextMatch(text, last);
      var plain := if k > last then [Plain(text[last..k])] else [];
      if k == |text| then TokensFrom(text, last) == plain
      else
        var t := StyledAt(text[k..]).value;
        Wrap(t) != "" && k + |Wrap(t)| <= |text| && TokensFrom(text, last) == plain + [t] + TokensFrom(text, k + |Wrap(t)|)
  {
    hide StyledAt, NextMatch;
  }

  method TokenizeInline(text: string) returns (tokens: seq<Token>)
    ensures Tokenizes(tokens, text, 0)
  {
    hide StyledAt, NextMatch, Tokenizes, Wrap, TokensFrom;
    tokens := [];
    var last := 0;
    var index := NextMatch(text, last);
    while index < |text|
      invariant 0 <= last <= index <= |text| && index == NextMatch(text, last)
      invariant tokens + TokensFrom(text, last) == TokensFrom(text, 0)
      decreases |text| - last
    {
      TokensStep(text, last);
      var tok := StyledAt(text[index..]).value;
      if index > last {
        tokens := tokens + [Plain(text[last..index])];
      }
      tokens := tokens + [tok];
      last := index + |Wrap(tok)|;
      index := NextMatch(text, last);
    }
    TokensStep(text, last);
    if last < |text| {
      assert text[last..|text|] == text[last..];
      tokens := tokens + [Plain(text[last..])];
    }
    assert tokens == TokensFrom(text, 0);
    TokensFromTokenizes(text, 0);
  }
}
