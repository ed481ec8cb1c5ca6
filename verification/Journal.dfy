/**
 The signer's append-only journal (signer/journal.ts): one line per event, each line
 chained to the one before by a hash, a torn last line cut off on opening.

 Hashing and the JSON encoding are parameters: `Codec` holds the SHA-256 digest, the
 canonical JSON of a numbered event, and its parser.
 */
module Journals {
  import opened Basics

  const MAX_LINE := 1024 * 1024
  const GENESIS: string := "0000000000000000000000000000000000000000000000000000000000000000"

  datatype Codec<!E> = Codec(
    hash: string -> string,
    encode: (nat, E) -> string,
    decode: string -> Option<(nat, E)>)

  /**
   Digests are 64 characters without separators; encoded events hold neither line breaks nor
   tabs, which JSON escapes, and parse back.
   */
  ghost predicate Sound<E(!new)>(c: Codec<E>) {
    && (forall x :: |c.hash(x)| == 64 && '\t' !in c.hash(x) && '\n' !in c.hash(x))
    && (forall n: nat, e: E :: '\n' !in c.encode(n, e) && '\t' !in c.encode(n, e))
    && (forall n: nat, e: E :: c.decode(c.encode(n, e)) == Some((n, e)))
  }

  function ChainHash<E>(c: Codec<E>, prev: string, body: string): string {
    c.hash(prev + body)
  }

  // ----- lines of a text

  datatype Text = Text(lines: seq<string>, torn: string)

  /** The complete lines of a text and what follows the last line break. */
  function Split(text: string): (t: Text)
    ensures |t.torn| <= |text|
  {
    if text == "" then Text([], "")
    else
      var t, ch := Split(text[..|text| - 1]), text[|text| - 1];
      if ch == '\n' then Text(t.lines + [t.torn], "") else t.(torn := t.torn + [ch])
  }

  /** The text up to its last line break: what opening the journal leaves in the file. */
  function Complete(text: string): string {
    text[..|text| - |Split(text).torn|]
  }

  function Join(lines: seq<string>): string {
    if |lines| == 0 then "" else Join(lines[..|lines| - 1]) + lines[|lines| - 1] + "\n"
  }

  lemma {:induction false} SplitMore(text: string, more: string)
    requires '\n' !in more
    ensures Split(text + more) == Split(text).(torn := Split(text).torn + more)
  {
    hide Split;
    if more == "" {
      assert text + more == text && Split(text).torn + more == Split(text).torn;
    } else {
      var init, ch := more[..|more| - 1], more[|more| - 1];
      SplitMore(text, init);
      SplitChar(text + init, ch);
      assert text + more == text + init + [ch];
      assert Split(text).torn + init + [ch] == Split(text).torn + more;
    }
  }

  lemma SplitChar(text: string, ch: char)
    requires ch != '\n'
    ensures Split(text + [ch]) == Split(text).(torn := Split(text).torn + [ch])
  {
    assert (text + [ch])[..|text|] == text;
  }

  lemma SplitLine(text: string, line: string)
    requires '\n' !in line
    ensures Split(text + line + "\n") == Text(Split(text).lines + [Split(text).torn + line], "")
  {
    SplitMore(text, line);
    assert (text + line + "\n")[..|text + line|] == text + line;
  }

  /** Splitting loses nothing. */
  lemma {:induction false} JoinSplit(text: string)
    ensures text == Join(Split(text).lines) + Split(text).torn
    ensures '\n' !in Split(text).torn
    ensures forall k :: 0 <= k < |Split(text).lines| ==> '\n' !in Split(text).lines[k]
  {
    if text != "" {
      var init, ch := text[..|text| - 1], text[|text| - 1];
      JoinSplit(init);
      assert text == init + [ch];
      var t := Split(init);
      if ch == '\n' {
        var lines := t.lines + [t.torn];
        assert lines[..|lines| - 1] == t.lines;
      }
    }
  }

  // ----- parsing

  datatype Code = BadHash | BadFormat | BadSequence | BadSize
  datatype Fault = Fault(code: Code, line: nat)
  datatype Chain<E> = Chain(events: seq<E>, head: string)
  datatype Parsed<E> = Parsed(events: seq<E>, head: string, torn: string)

  /** The position of the first tab, or the length of the line. */
  function TabIndex(line: string): (i: nat)
    ensures i <= |line|
    ensures i < |line| ==> line[i] == '\t'
    ensures '\t' !in line[..i]
  {
    if line == "" || line[0] == '\t' then 0 else 1 + TabIndex(line[1..])
  }

  /** The checks on line number `n`, in their order. */
  function CheckLine<E>(c: Codec<E>, head: string, n: nat, line: string): Result<E, Code> {
    if |line| > MAX_LINE then Err(BadSize)
    else if TabIndex(line) != 64 || |line| <= 64 then Err(BadFormat)
    else if ChainHash(c, head, line[65..]) != line[..64] then Err(BadHash)
    else
      match c.decode(line[65..])
      case None => Err(BadFormat)
      case Some((k, e)) =>
        if c.encode(k, e) != line[65..] then Err(BadFormat)
        else if k != n then Err(BadSequence)
        else Ok(e)
  }

  function Fold<E>(c: Codec<E>, lines: seq<string>): Result<Chain<E>, Fault> {
    if |lines| == 0 then Ok(Chain([], GENESIS))
    else
      var last := lines[|lines| - 1];
      match Fold(c, lines[..|lines| - 1])
      case Err(f) => Err(f)
      case Ok(ch) =>
        match CheckLine(c, ch.head, |lines|, last)
        case Err(code) => Err(Fault(code, |lines|))
        case Ok(e) => Ok(Chain(ch.events + [e], if |last| >= 64 then last[..64] else last))
  }

  function Parse<E>(c: Codec<E>, text: string): Result<Parsed<E>, Fault> {
    match Fold(c, Split(text).lines)
    case Err(f) => Err(f)
    case Ok(ch) => Ok(Parsed(ch.events, ch.head, Split(text).torn))
  }

  /** A fault in a prefix of the lines is the fault of the whole. */
  lemma {:induction false} FaultStays<E>(c: Codec<E>, lines: seq<string>, k: nat)
    requires k <= |lines| && Fold(c, lines[..k]).Err?
    ensures Fold(c, lines) == Err(Fold(c, lines[..k]).error)
  {
    if k == |lines| {
      assert lines[..k] == lines;
    } else {
      assert lines[..|lines| - 1][..k] == lines[..k];
      FaultStays(c, lines[..|lines| - 1], k);
    }
  }

  /** `parseJournal`: one pass over the lines, stopping at the first fault. */
  method ParseJournal<E>(c: Codec<E>, text: string) returns (r: Result<Parsed<E>, Fault>)
    ensures r == Parse(c, text)
  {
    var t := Split(text);
    var head, events := GENESIS, [];
    var i := 0;
    while i < |t.lines|
      invariant 0 <= i <= |t.lines|
      invariant Fold(c, t.lines[..i]) == Ok(Chain(events, head))
    {
      assert t.lines[..i + 1][..i] == t.lines[..i];
      var line := t.lines[i];
      var checked := CheckLine(c, head, i + 1, line);
      if checked.Err? {
        FaultStays(c, t.lines, i + 1);
        return Err(Fault(checked.error, i + 1));
      }
      head := line[..64];
      events := events + [checked.value];
      i := i + 1;
    }
    assert t.lines[..i] == t.lines;
    r := Ok(Parsed(events, head, t.torn));
  }

  // ----- writing

  function BodyOf<E>(c: Codec<E>, n: nat, e: E): string {
    c.encode(n, e)
  }

  function LineOf<E>(c: Codec<E>, head: string, n: nat, e: E): string {
    ChainHash(c, head, BodyOf(c, n, e)) + "\t" + BodyOf(c, n, e)
  }

  function HeadOf<E>(c: Codec<E>, events: seq<E>): string {
    if |events| == 0 then GENESIS
    else
      var n := |events|;
      ChainHash(c, HeadOf(c, events[..n - 1]), BodyOf(c, n, events[n - 1]))
  }

  /** The lines the journal writes for these events. */
  function LinesOf<E>(c: Codec<E>, events: seq<E>): seq<string> {
    if |events| == 0 then []
    else
      var n := |events|;
      LinesOf(c, events[..n - 1]) + [LineOf(c, HeadOf(c, events[..n - 1]), n, events[n - 1])]
  }

  function Render<E>(c: Codec<E>, events: seq<E>): string {
    Join(LinesOf(c, events))
  }

  lemma RenderAppend<E(!new)>(c: Codec<E>, events: seq<E>, e: E)
    ensures Render(c, events + [e]) == Render(c, events) + LineOf(c, HeadOf(c, events), |events| + 1, e) + "\n"
    ensures HeadOf(c, events + [e]) == ChainHash(c, HeadOf(c, events), BodyOf(c, |events| + 1, e))
    ensures LinesOf(c, events + [e]) == LinesOf(c, events) + [LineOf(c, HeadOf(c, events), |events| + 1, e)]
  {
    var more := events + [e];
    assert more[..|more| - 1] == events;
    var lines := LinesOf(c, more);
    assert lines[..|lines| - 1] == LinesOf(c, events);
  }

  lemma HeadLength<E(!new)>(c: Codec<E>, events: seq<E>)
    requires Sound(c)
    ensures |HeadOf(c, events)| == 64
  {
  }

  lemma LineHasNoBreak<E(!new)>(c: Codec<E>, head: string, n: nat, e: E)
    requires Sound(c)
    ensures '\n' !in LineOf(c, head, n, e) && |LineOf(c, head, n, e)| == 65 + |BodyOf(c, n, e)|
  {
    assert '\n' !in c.hash(head + c.encode(n, e));
    assert '\n' !in c.encode(n, e);
  }

  lemma {:induction false} SplitRender<E(!new)>(c: Codec<E>, events: seq<E>)
    requires Sound(c)
    ensures Split(Render(c, events)) == Text(LinesOf(c, events), "")
  {
    if |events| > 0 {
      var init, e := events[..|events| - 1], events[|events| - 1];
      assert init + [e] == events;
      RenderAppend(c, init, e);
      SplitRender(c, init);
      var line := LineOf(c, HeadOf(c, init), |events|, e);
      LineHasNoBreak(c, HeadOf(c, init), |events|, e);
      SplitLine(Render(c, init), line);
      assert "" + line == line;
    }
  }

  /** The parser's bound leaves room for the hash and the tab; the writer's does not. */
  predicate FitsLine<E>(c: Codec<E>, n: nat, e: E) {
    |BodyOf(c, n, e)| <= MAX_LINE - 65
  }

  ghost predicate AllFit<E>(c: Codec<E>, events: seq<E>) {
    forall k :: 0 <= k < |events| ==> FitsLine(c, k + 1, events[k])
  }

  lemma TabFirst(line: string)
    ensures forall i :: 0 <= i < |line| && line[i] == '\t' && '\t' !in line[..i] ==> TabIndex(line) == i
    ensures '\t' !in line ==> TabIndex(line) == |line|
  {
  }

  lemma {:induction false} TabAfter(h: string, body: string)
    requires '\t' !in h
    ensures TabIndex(h + "\t" + body) == |h|
  {
    if h != "" {
      assert (h + "\t" + body)[1..] == h[1..] + "\t" + body;
      TabAfter(h[1..], body);
    }
  }

  /** The parser accepts a written line exactly when its body fits. */
  lemma CheckWritten<E(!new)>(c: Codec<E>, head: string, n: nat, e: E)
    requires Sound(c)
    ensures CheckLine(c, head, n, LineOf(c, head, n, e)) == if FitsLine(c, n, e) then Ok(e) else Err(BadSize)
    ensures LineOf(c, head, n, e)[..64] == ChainHash(c, head, BodyOf(c, n, e))
  {
    var body := BodyOf(c, n, e);
    var h := ChainHash(c, head, body);
    var line := LineOf(c, head, n, e);
    LineHasNoBreak(c, head, n, e);
    assert |h| == 64 && '\t' !in h;
    TabAfter(h, body);
    assert line[..64] == h && line[65..] == body;
  }

  lemma {:induction false} FoldWritten<E(!new)>(c: Codec<E>, events: seq<E>)
    requires Sound(c)
    ensures AllFit(c, events) ==> Fold(c, LinesOf(c, events)) == Ok(Chain(events, HeadOf(c, events)))
    ensures !AllFit(c, events) ==> Fold(c, LinesOf(c, events)).Err? && Fold(c, LinesOf(c, events)).error.code == BadSize
    ensures |LinesOf(c, events)| == |events|
  {
    hide Sound, LineOf, HeadOf, LinesOf, CheckLine, ChainHash, BodyOf, FitsLine;
    if |events| == 0 {
      NothingWritten(c);
    } else {
      var init, e := events[..|events| - 1], events[|events| - 1];
      assert init + [e] == events;
      FoldWritten(c, init);
      RenderAppend(c, init, e);
      var lines := LinesOf(c, events);
      assert lines[..|lines| - 1] == LinesOf(c, init);
      CheckWritten(c, HeadOf(c, init), |events|, e);
      LineHasNoBreak(c, HeadOf(c, init), |events|, e);
      assert AllFit(c, events) <==> AllFit(c, init) && FitsLine(c, |events|, e);
    }
  }

  /**
   Reopening: a written journal followed by a torn line parses to exactly the written
   events if and only if every body leaves room for the hash and the tab.
   */
  lemma ReopenExactly<E(!new)>(c: Codec<E>, events: seq<E>, torn: string)
    requires Sound(c) && '\n' !in torn
    ensures Parse(c, Render(c, events) + torn).Ok? <==> AllFit(c, events)
    ensures AllFit(c, events) ==>
              Parse(c, Render(c, events) + torn) == Ok(Parsed(events, HeadOf(c, events), torn))
    ensures !AllFit(c, events) ==> Parse(c, Render(c, events) + torn).error.code == BadSize
  {
    hide Render, Split, Fold, LinesOf, HeadOf, Sound, AllFit;
    SplitRender(c, events);
    SplitMore(Render(c, events), torn);
    FoldWritten(c, events);
    assert "" + torn == torn;
  }

  /** A body the writer still takes but the parser does not: the journal no longer opens. */
  lemma LongBodyLocksOut<E(!new)>(c: Codec<E>, events: seq<E>, e: E, later: seq<E>)
    requires Sound(c) && MAX_LINE - 65 < |BodyOf(c, |events| + 1, e)| <= MAX_LINE
    ensures Parse(c, Render(c, events + [e] + later)).Err?
  {
    var all := events + [e] + later;
    assert all[|events|] == e;
    assert !FitsLine(c, |events| + 1, all[|events|]);
    ReopenExactly(c, all, "");
    assert Render(c, all) + "" == Render(c, all);
  }

  lemma CompleteRender<E(!new)>(c: Codec<E>, events: seq<E>, torn: string)
    requires Sound(c) && '\n' !in torn
    ensures Complete(Render(c, events) + torn) == Render(c, events)
  {
    hide Render, Split, LinesOf, Sound;
    SplitRender(c, events);
    SplitMore(Render(c, events), torn);
    assert (Render(c, events) + torn)[..|Render(c, events)|] == Render(c, events);
  }

  /** A crash while a line is written keeps some prefix of it; only the whole line counts. */
  lemma CrashedWrite<E(!new)>(c: Codec<E>, events: seq<E>, e: E, kept: nat)
    requires Sound(c) && AllFit(c, events) && FitsLine(c, |events| + 1, e)
    requires kept <= |LineOf(c, HeadOf(c, events), |events| + 1, e)| + 1
    ensures var line := LineOf(c, HeadOf(c, events), |events| + 1, e) + "\n";
            var text := Render(c, events) + line[..kept];
            var after := if kept == |line| then events + [e] else events;
            && Parse(c, text).Ok?
            && Parse(c, text).value.events == after
            && Complete(text) == Render(c, after)
  {
    hide Render, Split, HeadOf, LineOf, Fold;
    var head := HeadOf(c, events);
    var body := LineOf(c, head, |events| + 1, e);
    var line := body + "\n";
    LineHasNoBreak(c, head, |events| + 1, e);
    if kept == |line| {
      RenderAppend(c, events, e);
      assert Render(c, events) + line[..kept] == Render(c, events + [e]) + "";
      assert AllFit(c, events + [e]);
      ReopenExactly(c, events + [e], "");
      CompleteRender(c, events + [e], "");
    } else {
      assert line[..kept] == body[..kept];
      ReopenExactly(c, events, body[..kept]);
      CompleteRender(c, events, body[..kept]);
    }
  }

  lemma AcceptedLine<E(!new)>(c: Codec<E>, head: string, n: nat, line: string)
    requires CheckLine(c, head, n, line).Ok?
    ensures |line| > 64 && line[..64] == ChainHash(c, head, BodyOf(c, n, CheckLine(c, head, n, line).value))
    ensures line == LineOf(c, head, n, CheckLine(c, head, n, line).value)
  {
    assert line == line[..64] + "\t" + line[65..];
  }

  /** The parser accepts no other spelling: an accepted text is the rendering of its events. */
  lemma {:induction false} FoldedIsWritten<E(!new)>(c: Codec<E>, lines: seq<string>)
    requires Fold(c, lines).Ok?
    ensures LinesOf(c, Fold(c, lines).value.events) == lines
    ensures HeadOf(c, Fold(c, lines).value.events) == Fold(c, lines).value.head
    ensures |Fold(c, lines).value.events| == |lines|
  {
    hide CheckLine, LineOf, Render, LinesOf, HeadOf, Fold, ChainHash, BodyOf;
    if |lines| == 0 {
      NothingWritten(c);
    } else {
      var init, last := lines[..|lines| - 1], lines[|lines| - 1];
      FoldedOneMore(c, lines);
      FoldedIsWritten(c, init);
      var ch := Fold(c, init).value;
      AcceptedLine(c, ch.head, |lines|, last);
      RenderAppend(c, ch.events, CheckLine(c, ch.head, |lines|, last).value);
      assert init + [last] == lines;
    }
  }

  lemma NothingWritten<E(!new)>(c: Codec<E>)
    ensures Fold(c, []) == Ok(Chain([], GENESIS)) && LinesOf(c, []) == [] && HeadOf(c, []) == GENESIS
  {
  }

  lemma FoldedOneMore<E(!new)>(c: Codec<E>, lines: seq<string>)
    requires |lines| > 0 && Fold(c, lines).Ok?
    ensures Fold(c, lines[..|lines| - 1]).Ok?
    ensures var ch, last := Fold(c, lines[..|lines| - 1]).value, lines[|lines| - 1];
            && CheckLine(c, ch.head, |lines|, last).Ok?
            && |last| > 64
            && Fold(c, lines).value == Chain(ch.events + [CheckLine(c, ch.head, |lines|, last).value], last[..64])
  {
    AcceptedLine(c, Fold(c, lines[..|lines| - 1]).value.head, |lines|, lines[|lines| - 1]);
  }

  lemma AcceptedIsWritten<E(!new)>(c: Codec<E>, text: string)
    requires Parse(c, text).Ok?
    ensures text == Render(c, Parse(c, text).value.events) + Parse(c, text).value.torn
    ensures Complete(text) == Render(c, Parse(c, text).value.events)
    ensures Parse(c, text).value.head == HeadOf(c, Parse(c, text).value.events)
  {
    JoinSplit(text);
    FoldedIsWritten(c, Split(text).lines);
  }

  // ----- the head pins down the history

  predicate Collide<E>(c: Codec<E>, x: string, y: string) {
    x != y && c.hash(x) == c.hash(y)
  }

  /** Two inputs with one digest, or an input that hashes to the starting head. */
  predicate Broken<E>(c: Codec<E>, x: string, y: string) {
    Collide(c, x, y) || c.hash(x) == GENESIS
  }

  lemma {:induction false} SameHead<E(!new)>(c: Codec<E>, a: seq<E>, b: seq<E>) returns (x: string, y: string)
    requires Sound(c) && HeadOf(c, a) == HeadOf(c, b)
    ensures a == b || Broken(c, x, y)
    ensures |a| == |b| ==> a == b || Collide(c, x, y)
  {
    x, y := "", "";
    if |a| == 0 && |b| == 0 {
    } else if |a| == 0 {
      x := HeadOf(c, b[..|b| - 1]) + BodyOf(c, |b|, b[|b| - 1]);
    } else if |b| == 0 {
      x := HeadOf(c, a[..|a| - 1]) + BodyOf(c, |a|, a[|a| - 1]);
    } else {
      var a', b' := a[..|a| - 1], b[..|b| - 1];
      var bodyA, bodyB := BodyOf(c, |a|, a[|a| - 1]), BodyOf(c, |b|, b[|b| - 1]);
      x, y := HeadOf(c, a') + bodyA, HeadOf(c, b') + bodyB;
      if x == y {
        HeadLength(c, a');
        HeadLength(c, b');
        assert x[..64] == HeadOf(c, a') && y[..64] == HeadOf(c, b');
        assert x[64..] == bodyA && y[64..] == bodyB;
        assert c.decode(bodyA) == Some((|a|, a[|a| - 1]));
        assert c.decode(bodyB) == Some((|b|, b[|b| - 1]));
        assert a == a' + [a[|a| - 1]] && b == b' + [b[|b| - 1]];
        x, y := SameHead(c, a', b');
      }
    }
  }

  /**
   The head determines the history: two accepted journals with the same head hold the same
   events, or exhibit a collision of the hash or an input hashing to the starting head.
   */
  lemma HeadDeterminesHistory<E(!new)>(c: Codec<E>, s: string, t: string) returns (x: string, y: string)
    requires Sound(c) && Parse(c, s).Ok? && Parse(c, t).Ok?
    requires Parse(c, s).value.head == Parse(c, t).value.head
    ensures Broken(c, x, y) ||
            (Parse(c, s).value.events == Parse(c, t).value.events &&
             Complete(s) == Complete(t))
  {
    AcceptedIsWritten(c, s);
    AcceptedIsWritten(c, t);
    x, y := SameHead(c, Parse(c, s).value.events, Parse(c, t).value.events);
  }

  // ----- the fault reported

  /** What is wrong with line `n` behind this head. */
  ghost predicate Flawed<E(!new)>(c: Codec<E>, head: string, n: nat, line: string, code: Code) {
    var tabbed := |line| > 64 && line[64] == '\t' && '\t' !in line[..64];
    var chained := tabbed && c.hash(head + line[65..]) == line[..64];
    match code
    case BadSize => |line| > 1024 * 1024
    case BadFormat =>
      |line| <= 1024 * 1024 && (!tabbed || (chained && forall k: nat, e :: line[65..] != c.encode(k, e)))
    case BadHash => |line| <= 1024 * 1024 && tabbed && !chained
    case BadSequence =>
      |line| <= 1024 * 1024 && chained && exists k: nat, e :: k != n && line[65..] == c.encode(k, e)
  }

  lemma FlawExactly<E(!new)>(c: Codec<E>, head: string, n: nat, line: string, code: Code)
    requires Sound(c)
    ensures CheckLine(c, head, n, line) == Err(code) <==> Flawed(c, head, n, line, code)
  {
    hide Sound, TabIndex;
    TabFirst(line);
    var tabbed := |line| > 64 && line[64] == '\t' && '\t' !in line[..64];
    assert tabbed <==> TabIndex(line) == 64 && |line| > 64;
    if tabbed {
      var body := line[65..];
      DecodedExactly(c, body);
      var d := c.decode(body);
      if d.Some? && c.encode(d.value.0, d.value.1) == body {
        assert forall k: nat, e: E :: body == c.encode(k, e) ==> k == d.value.0;
      } else {
        assert forall k: nat, e: E :: body != c.encode(k, e);
      }
    }
  }

  /** The parser takes exactly the bodies that are encodings, each for the one event it encodes. */
  lemma DecodedExactly<E(!new)>(c: Codec<E>, body: string)
    requires Sound(c)
    ensures forall k: nat, e: E :: body == c.encode(k, e) ==> c.decode(body) == Some((k, e))
  {
  }

  lemma {:induction false} FirstFault<E(!new)>(c: Codec<E>, lines: seq<string>, code: Code, n: nat)
    ensures Fold(c, lines) == Err(Fault(code, n)) <==>
              && 1 <= n <= |lines| && Fold(c, lines[..n - 1]).Ok?
              && CheckLine(c, Fold(c, lines[..n - 1]).value.head, n, lines[n - 1]) == Err(code)
  {
    hide CheckLine;
    if |lines| > 0 {
      var init := lines[..|lines| - 1];
      FirstFault(c, init, code, n);
      if 1 <= n < |lines| {
        assert init[..n - 1] == lines[..n - 1];
        var before := Fold(c, lines[..n - 1]);
        if before.Ok? && CheckLine(c, before.value.head, n, lines[n - 1]) == Err(code) {
          assert Fold(c, init).Err?;
        }
      }
    }
  }

  /**
   The fault reported is the first there is: the lines before it are written lines the parser
   takes, and line `n` is flawed behind them, in the way the code says.
   */
  lemma FaultExactly<E(!new)>(c: Codec<E>, text: string, code: Code, n: nat)
    requires Sound(c)
    ensures Parse(c, text) == Err(Fault(code, n)) <==>
              var lines := Split(text).lines;
              && 1 <= n <= |lines|
              && exists events :: AllFit(c, events) && LinesOf(c, events) == lines[..n - 1]
                                  && Flawed(c, HeadOf(c, events), n, lines[n - 1], code)
  {
    hide Sound, Split, Fold, CheckLine, Flawed, LinesOf, HeadOf, AllFit;
    var lines := Split(text).lines;
    FirstFault(c, lines, code, n);
    if 1 <= n <= |lines| {
      var init := lines[..n - 1];
      if Fold(c, init).Ok? {
        var events := Fold(c, init).value.events;
        FoldedIsWritten(c, init);
        FoldWritten(c, events);
        FlawExactly(c, HeadOf(c, events), n, lines[n - 1], code);
      }
      forall events | AllFit(c, events) && LinesOf(c, events) == init
                      && Flawed(c, HeadOf(c, events), n, lines[n - 1], code)
        ensures Fold(c, init).Ok? && CheckLine(c, Fold(c, init).value.head, n, lines[n - 1]) == Err(code)
      {
        FoldWritten(c, events);
        FlawExactly(c, HeadOf(c, events), n, lines[n - 1], code);
      }
    }
  }

  // ----- lines written behind one that is incomplete

  lemma {:induction false} TabBehind(a: string, b: string)
    ensures TabIndex(a + b) == if '\t' in a then TabIndex(a) else |a| + TabIndex(b)
  {
    if a == "" {
      assert a + b == b;
    } else {
      assert (a + b)[1..] == a[1..] + b;
      TabBehind(a[1..], b);
    }
  }

  /** Where a text begins with a digest and a tab, the digest is that of some body. */
  ghost predicate Digests<E>(c: Codec<E>, text: string, z: string) {
    |z| >= 64 && '\t' !in z[64..] && |text| >= 64 && c.hash(z) == text[..64]
  }

  /** What incomplete writes leave behind the last line break: pieces of written lines. */
  ghost predicate Scrap<E>(c: Codec<E>, torn: string) {
    && '\n' !in torn
    && (TabIndex(torn) == 64 && |torn| > 64 ==> exists z :: Digests(c, torn, z))
  }

  /** One more piece. */
  lemma ScrapGrows<E(!new)>(c: Codec<E>, torn: string, events: seq<E>, e: E, kept: nat)
    requires Sound(c) && Scrap(c, torn) && kept <= |LineOf(c, HeadOf(c, events), |events| + 1, e)|
    ensures Scrap(c, torn + LineOf(c, HeadOf(c, events), |events| + 1, e)[..kept])
  {
    hide LineOf, HeadOf, Sound;
    var head, n := HeadOf(c, events), |events| + 1;
    var piece := LineOf(c, head, n, e)[..kept];
    LineHasNoBreak(c, head, n, e);
    TabBehind(torn, piece);
    if '\t' in torn {
      TabIn(torn);
      if TabIndex(torn) == 64 {
        var z :| Digests(c, torn, z);
        assert (torn + piece)[..64] == torn[..64];
        assert Digests(c, torn + piece, z);
      }
    } else if torn == "" && kept > 64 {
      HeadLength(c, events);
      LineDigests(c, head, n, e, kept);
      assert torn + piece == piece;
      assert Digests(c, torn + piece, head + BodyOf(c, n, e));
    } else {
      PieceTab(c, head, n, e, kept);
    }
  }

  lemma PieceTab<E(!new)>(c: Codec<E>, head: string, n: nat, e: E, kept: nat)
    requires Sound(c) && kept <= |LineOf(c, head, n, e)|
    ensures var piece := LineOf(c, head, n, e)[..kept];
            TabIndex(piece) == |piece| || TabIndex(piece) >= 64
  {
    var piece := LineOf(c, head, n, e)[..kept];
    assert '\t' !in ChainHash(c, head, BodyOf(c, n, e));
    assert forall i :: 0 <= i < kept && i < 64 ==> piece[i] == ChainHash(c, head, BodyOf(c, n, e))[i];
  }

  lemma TabIn(text: string)
    requires '\t' in text
    ensures TabIndex(text) < |text|
  {
  }

  lemma LineDigests<E(!new)>(c: Codec<E>, head: string, n: nat, e: E, kept: nat)
    requires Sound(c) && |head| == 64 && 64 < kept <= |LineOf(c, head, n, e)|
    ensures Digests(c, LineOf(c, head, n, e)[..kept], head + BodyOf(c, n, e))
  {
    assert (head + BodyOf(c, n, e))[64..] == BodyOf(c, n, e);
    assert LineOf(c, head, n, e)[..kept][..64] == ChainHash(c, head, BodyOf(c, n, e));
  }

  /**
   A complete line behind the scrap of incomplete ones, or from a writer whose idea of the
   journal is another one: the parser does not take it for the line at this place, short of
   a collision.
   */
  lemma StaleLine<E(!new)>(c: Codec<E>, written: seq<E>, believed: seq<E>, torn: string, e: E)
    returns (x: string, y: string)
    requires Sound(c) && Scrap(c, torn) && (torn != "" || written != believed)
    ensures var line := LineOf(c, HeadOf(c, believed), |believed| + 1, e);
            CheckLine(c, HeadOf(c, written), |written| + 1, torn + line).Err? || Collide(c, x, y)
  {
    hide HeadOf;
    HeadLength(c, written);
    HeadLength(c, believed);
    if torn == "" {
      x, y := MisplacedLine(c, written, believed, e);
      var line := LineOf(c, HeadOf(c, believed), |believed| + 1, e);
      assert torn + line == line;
    } else {
      x, y := ScrappedLine(c, HeadOf(c, written), |written| + 1, torn, HeadOf(c, believed), |believed| + 1, e);
    }
  }

  lemma MisplacedLine<E(!new)>(c: Codec<E>, written: seq<E>, believed: seq<E>, e: E) returns (x: string, y: string)
    requires Sound(c) && written != believed
    ensures CheckLine(c, HeadOf(c, written), |written| + 1, LineOf(c, HeadOf(c, believed), |believed| + 1, e)).Err?
            || Collide(c, x, y)
  {
    x, y := "", "";
    hide HeadOf;
    var head, head' := HeadOf(c, written), HeadOf(c, believed);
    var body := BodyOf(c, |believed| + 1, e);
    var line := LineOf(c, head', |believed| + 1, e);
    HeadLength(c, written);
    HeadLength(c, believed);
    assert line[65..] == body && line[..64] == ChainHash(c, head', body);
    assert c.decode(body) == Some((|believed| + 1, e));
    if |written| == |believed| {
      if head == head' {
        x, y := SameHead(c, written, believed);
      } else {
        x, y := head + body, head' + body;
        assert x[..64] == head && y[..64] == head';
      }
    }
  }

  lemma ScrappedLine<E(!new)>(c: Codec<E>, head: string, n: nat, torn: string, head': string, n': nat, e: E)
    returns (x: string, y: string)
    requires Sound(c) && Scrap(c, torn) && torn != "" && |head| == 64
    ensures CheckLine(c, head, n, torn + LineOf(c, head', n', e)).Err? || Collide(c, x, y)
  {
    x, y := "", "";
    var body := BodyOf(c, n', e);
    var hash := ChainHash(c, head', body);
    var line := LineOf(c, head', n', e);
    var patched := torn + line;
    assert |hash| == 64 && '\t' !in hash;
    TabAfter(hash, body);
    TabBehind(torn, line);
    if '\t' in torn && TabIndex(torn) == 64 {
      TabIn(torn);
      var z :| Digests(c, torn, z);
      assert patched[..64] == torn[..64];
      assert patched[65..][|torn| - 65 + 64] == '\t';
      x, y := z, head + patched[65..];
      assert y[64..] == patched[65..];
    }
  }

  /** What is read later leaves the complete lines read so far as they are. */
  lemma {:induction false} LinesStay(text: string, more: string)
    ensures Split(text).lines <= Split(text + more).lines
  {
    if more == "" {
      assert text + more == text;
    } else {
      var init, ch := more[..|more| - 1], more[|more| - 1];
      LinesStay(text, init);
      assert (text + more)[..|text + more| - 1] == text + init;
    }
  }

  /** A journal that does not parse does not parse with more behind it either. */
  lemma NeverOpensAgain<E>(c: Codec<E>, text: string, more: string)
    requires Parse(c, text).Err?
    ensures Parse(c, text + more).Err?
  {
    hide Split, Fold;
    LinesStay(text, more);
    var lines := Split(text + more).lines;
    assert lines[..|Split(text).lines|] == Split(text).lines;
    FaultStays(c, lines, |Split(text).lines|);
  }

  /** One line the parser refuses behind the written ones, and the journal does not open. */
  lemma BadLine<E(!new)>(c: Codec<E>, events: seq<E>, bad: string)
    requires Sound(c) && '\n' !in bad && CheckLine(c, HeadOf(c, events), |events| + 1, bad).Err?
    ensures Parse(c, Render(c, events) + bad + "\n").Err?
  {
    hide Render, Split, HeadOf, LinesOf, CheckLine, Sound;
    SplitRender(c, events);
    SplitLine(Render(c, events), bad);
    assert "" + bad == bad;
    FoldWritten(c, events);
    var lines := LinesOf(c, events) + [bad];
    assert lines[..|lines| - 1] == LinesOf(c, events);
  }

  /**
   After a write that failed with `kept` characters of its line in the file, the next line,
   chained to the old head, leaves an openable file if and only if nothing was kept.
   */
  lemma AppendAfterFailure<E(!new)>(c: Codec<E>, events: seq<E>, e: E, kept: nat, e': E) returns (x: string, y: string)
    requires Sound(c) && AllFit(c, events) && FitsLine(c, |events| + 1, e')
    requires kept <= |LineOf(c, HeadOf(c, events), |events| + 1, e)| + 1
    ensures var line := LineOf(c, HeadOf(c, events), |events| + 1, e) + "\n";
            var line' := LineOf(c, HeadOf(c, events), |events| + 1, e') + "\n";
            var text := Render(c, events) + line[..kept] + line';
            && (kept == 0 ==> Parse(c, text) == Ok(Parsed(events + [e'], HeadOf(c, events + [e']), "")))
            && (kept > 0 ==> Parse(c, text).Err? || Collide(c, x, y))
  {
    x, y := "", "";
    if kept == 0 {
      hide Render, Split, HeadOf, LineOf, Fold, Sound;
      var line := LineOf(c, HeadOf(c, events), |events| + 1, e) + "\n";
      assert line[..kept] == "";
      RenderAppend(c, events, e');
      var text := Render(c, events) + "" + (LineOf(c, HeadOf(c, events), |events| + 1, e') + "\n");
      assert text == Render(c, events + [e']) + "";
      assert AllFit(c, events + [e']);
      ReopenExactly(c, events + [e'], "");
    } else {
      x, y := AppendBehindPiece(c, events, e, kept, events, e');
    }
  }

  /** The same when the writer took a line for written of which only `kept` characters were. */
  lemma AppendAfterShortWrite<E(!new)>(c: Codec<E>, events: seq<E>, e: E, kept: nat, e': E)
    returns (x: string, y: string)
    requires Sound(c) && AllFit(c, events + [e, e'])
    requires kept <= |LineOf(c, HeadOf(c, events), |events| + 1, e)| + 1
    ensures var line := LineOf(c, HeadOf(c, events), |events| + 1, e) + "\n";
            var line' := LineOf(c, HeadOf(c, events + [e]), |events| + 2, e') + "\n";
            var text := Render(c, events) + line[..kept] + line';
            && (kept == |line| ==> Parse(c, text) == Ok(Parsed(events + [e, e'], HeadOf(c, events + [e, e']), "")))
            && (kept < |line| ==> Parse(c, text).Err? || Collide(c, x, y))
  {
    hide Render, Split, HeadOf, LineOf, Fold, Sound, AllFit;
    x, y := "", "";
    var line := LineOf(c, HeadOf(c, events), |events| + 1, e) + "\n";
    if kept == |line| {
      var line' := LineOf(c, HeadOf(c, events + [e]), |events| + 2, e') + "\n";
      assert line[..kept] == line;
      RenderAppend(c, events, e);
      RenderAppend(c, events + [e], e');
      assert events + [e] + [e'] == events + [e, e'];
      assert Render(c, events) + line + line' == Render(c, events + [e, e']) + "";
      ReopenExactly(c, events + [e, e'], "");
    } else {
      assert |events + [e]| == |events| + 1;
      x, y := AppendBehindPiece(c, events, e, kept, events + [e], e');
    }
  }

  /** A complete line behind a file that is not what the writer takes it for. */
  lemma StaleAppend<E(!new)>(c: Codec<E>, written: seq<E>, believed: seq<E>, torn: string, e: E)
    returns (x: string, y: string)
    requires Sound(c) && Scrap(c, torn) && (torn != "" || written != believed)
    ensures var line := LineOf(c, HeadOf(c, believed), |believed| + 1, e) + "\n";
            Parse(c, Render(c, written) + torn + line).Err? || Collide(c, x, y)
  {
    hide Render, HeadOf, LineOf, Sound, Parse, CheckLine;
    x, y := StaleLine(c, written, believed, torn, e);
    var line := LineOf(c, HeadOf(c, believed), |believed| + 1, e);
    LineHasNoBreak(c, HeadOf(c, believed), |believed| + 1, e);
    assert Render(c, written) + torn + (line + "\n") == Render(c, written) + (torn + line) + "\n";
    if CheckLine(c, HeadOf(c, written), |written| + 1, torn + line).Err? {
      BadLine(c, written, torn + line);
    }
  }

  /** The same behind `kept` characters of a line the writer took for written or not. */
  lemma AppendBehindPiece<E(!new)>(c: Codec<E>, events: seq<E>, e: E, kept: nat, believed: seq<E>, e': E)
    returns (x: string, y: string)
    requires Sound(c) && kept <= |LineOf(c, HeadOf(c, events), |events| + 1, e)| + 1
    requires if kept == |LineOf(c, HeadOf(c, events), |events| + 1, e)| + 1 then believed != events + [e]
             else kept > 0 || believed != events
    ensures var line := LineOf(c, HeadOf(c, events), |events| + 1, e) + "\n";
            var line' := LineOf(c, HeadOf(c, believed), |believed| + 1, e') + "\n";
            Parse(c, Render(c, events) + line[..kept] + line').Err? || Collide(c, x, y)
  {
    hide Render, HeadOf, LineOf, Sound, Parse;
    var line := LineOf(c, HeadOf(c, events), |events| + 1, e);
    NoScrap(c);
    if kept == |line| + 1 {
      RenderAppend(c, events, e);
      x, y := StaleAppend(c, events + [e], believed, "", e');
      assert (line + "\n")[..kept] == line + "\n";
      assert Render(c, events) + (line + "\n") == Render(c, events + [e]) + "";
    } else {
      ScrapGrows(c, "", events, e, kept);
      assert "" + line[..kept] == line[..kept] && (line + "\n")[..kept] == line[..kept];
      x, y := StaleAppend(c, events, believed, line[..kept], e');
    }
  }

  lemma NoScrap<E>(c: Codec<E>)
    ensures Scrap(c, "")
  {
  }

  // ----- the open journal

  class Journal<E(!new)> {
    const codec: Codec<E>
    var file: string
    var head: string
    var seqNo: nat
    ghost var events: seq<E>

    ghost predicate Valid()
      reads this
    {
      && Sound(codec)
      && file == Render(codec, events)
      && head == HeadOf(codec, events)
      && seqNo == |events|
    }

    constructor (codec: Codec<E>, file: string, head: string, ghost events: seq<E>, seqNo: nat)
      requires Sound(codec) && file == Render(codec, events) && head == HeadOf(codec, events) && seqNo == |events|
      ensures Valid() && this.codec == codec && this.file == file && this.events == events
    {
      this.codec, this.file, this.head, this.events, this.seqNo := codec, file, head, events, seqNo;
    }

    /** Writes one line; only the writer's own bound on the body can refuse it. */
    method Append(e: E) returns (ok: bool)
      requires Valid()
      modifies this
      ensures Valid()
      ensures ok <==> |BodyOf(codec, |old(events)| + 1, e)| <= MAX_LINE
      ensures events == if ok then old(events) + [e] else old(events)
      ensures old(file) <= file && (!ok ==> file == old(file) && head == old(head))
    {
      var body := BodyOf(codec, seqNo + 1, e);
      if |body| > MAX_LINE {
        return false;
      }
      var hash := ChainHash(codec, head, body);
      RenderAppend(codec, events, e);
      file := file + (hash + "\t" + body) + "\n";
      head := hash;
      seqNo := seqNo + 1;
      events := events + [e];
      ok := true;
    }
  }

  /** `Journal.open`: checks the whole chain, cuts a torn last line off, goes on from there. */
  method Open<E(!new)>(c: Codec<E>, text: string) returns (r: Result<Journal<E>, Fault>, events: seq<E>)
    requires Sound(c)
    ensures r.Ok? <==> Parse(c, text).Ok?
    ensures r.Err? ==> r.error == Parse(c, text).error
    ensures r.Ok? ==>
              && fresh(r.value) && r.value.Valid() && r.value.codec == c
              && events == Parse(c, text).value.events == r.value.events
              && r.value.file == Complete(text)
  {
    var parsed := ParseJournal(c, text);
    events := [];
    match parsed
    case Err(f) => r := Err(f);
    case Ok(p) =>
      AcceptedIsWritten(c, text);
      FoldedIsWritten(c, Split(text).lines);
      events := p.events;
      var j := new Journal(c, text[..|text| - |p.torn|], p.head, p.events, |p.events|);
      r := Ok(j);
  }
}
