/**
 The signer with its file, its crashes, its failing writes and its restarts
 (signer/journal.ts, signer/service.ts:159-203): what was answered survives, what comes back
 after a crash is the replay of the completely written lines, and exactly which writes lead
 to a journal that does not open any more.
 */
module Durability {
  import opened Basics
  import opened Policies
  import opened SignerState
  import opened SignerRules
  import opened SignerRuns
  import opened Journals

  /** A running signer: its state and the journal's position. */
  datatype Process = Process(state: State, head: string, seqNo: nat)

  datatype Happening =
    | Served(stamp: Stamp)                  // written, applied and answered
    | TornWrite(stamp: Stamp, kept: nat)    // crashed after `kept` characters of the line
    | FailedWrite(stamp: Stamp, kept: nat)  // write or sync threw, with `kept` characters in the file
    | ShortWrite(stamp: Stamp, kept: nat)   // only `kept` characters written, nobody looked at the count
    | Stopped                               // crashed or stopped between commands
    | Restarted

  /**
   The last three fields are not part of the signer. `log` lists the events whose line was
   written completely, `answered` says of each whether its command was answered, and
   `believed` lists the events the running signer takes to be in the file.
   */
  datatype World = World(file: string, process: Option<Process>, log: seq<Stamp>, answered: seq<bool>,
                         believed: seq<Stamp>)

  function Start(): World {
    World("", Some(Process(EmptyState(), GENESIS, 0)), [], [], [])
  }

  function NextLine(c: Codec<Entry>, p: Process, st: Stamp): string {
    LineOf(c, p.head, p.seqNo + 1, EntryOf(st)) + "\n"
  }

  /** The signer after it took the line for written. */
  function Advanced(c: Codec<Entry>, p: Process, st: Stamp): Process {
    Process(Apply(p.state, st.at, st.event), ChainHash(c, p.head, BodyOf(c, p.seqNo + 1, EntryOf(st))), p.seqNo + 1)
  }

  /** A command reaches the journal when the live state permits it and its body is not too long. */
  predicate MayRecord(cfg: Config, c: Codec<Entry>, w: World, st: Stamp) {
    && w.process.Some?
    && NotAfter(w.log, st.checked) && st.checked <= st.at
    && Permitted(cfg, w.process.value.state, st.who, st.checked, st.event)
    && |BodyOf(c, w.process.value.seqNo + 1, EntryOf(st))| <= MAX_LINE
  }

  predicate Enabled(cfg: Config, c: Codec<Entry>, w: World, h: Happening) {
    match h
    case Served(st) => MayRecord(cfg, c, w, st)
    case TornWrite(st, kept) => MayRecord(cfg, c, w, st) && kept <= |NextLine(c, w.process.value, st)|
    case FailedWrite(st, kept) => MayRecord(cfg, c, w, st) && kept <= |NextLine(c, w.process.value, st)|
    case ShortWrite(st, kept) => MayRecord(cfg, c, w, st) && kept < |NextLine(c, w.process.value, st)|
    case Stopped => w.process.Some?
    case Restarted => w.process.None?
  }

  /** What a write that got `kept` characters of the line into the file leaves in file and log. */
  function Written(w: World, line: string, st: Stamp, kept: nat): World
    requires kept <= |line|
  {
    if kept == |line| then w.(file := w.file + line, log := w.log + [st], answered := w.answered + [false])
    else w.(file := w.file + line[..kept])
  }

  function Next(cfg: Config, c: Codec<Entry>, w: World, h: Happening): World
    requires Enabled(cfg, c, w, h)
  {
    match h
    case Served(st) =>
      var p := w.process.value;
      World(w.file + NextLine(c, p, st), Some(Advanced(c, p, st)), w.log + [st], w.answered + [true], w.believed + [st])
    case TornWrite(st, kept) => Written(w, NextLine(c, w.process.value, st), st, kept).(process := None)
    case FailedWrite(st, kept) => Written(w, NextLine(c, w.process.value, st), st, kept)
    case ShortWrite(st, kept) =>
      var p := w.process.value;
      Written(w, NextLine(c, p, st), st, kept).(process := Some(Advanced(c, p, st)), believed := w.believed + [st])
    case Stopped => w.(process := None)
    case Restarted =>
      match Parse(c, w.file)
      case Err(_) => w
      case Ok(parsed) =>
        w.(file := Complete(w.file),
           process := Some(Process(Replay(parsed.events), parsed.head, |parsed.events|)),
           believed := w.log)
  }

  ghost predicate Possible(cfg: Config, c: Codec<Entry>, hs: seq<Happening>)
    decreases |hs|, 0
  {
    |hs| > 0 ==>
      && Possible(cfg, c, hs[..|hs| - 1])
      && Enabled(cfg, c, WorldAfter(cfg, c, hs[..|hs| - 1]), hs[|hs| - 1])
  }

  ghost function WorldAfter(cfg: Config, c: Codec<Entry>, hs: seq<Happening>): World
    requires Possible(cfg, c, hs)
    decreases |hs|, 1
  {
    if |hs| == 0 then Start()
    else Next(cfg, c, WorldAfter(cfg, c, hs[..|hs| - 1]), hs[|hs| - 1])
  }

  predicate Writes(h: Happening) {
    h.Served? || h.TornWrite? || h.FailedWrite? || h.ShortWrite?
  }

  /** This puts a complete line into the file. */
  predicate WritesLine(c: Codec<Entry>, w: World, h: Happening) {
    w.process.Some? &&
    (h.Served? || ((h.TornWrite? || h.FailedWrite?) && h.kept == |NextLine(c, w.process.value, h.stamp)|))
  }

  /** The file is not what the running signer takes it to be. */
  predicate Dirty(c: Codec<Entry>, w: World) {
    w.process.Some? && !(EntriesOf(w.believed) == EntriesOf(w.log) && w.file == Render(c, EntriesOf(w.log)))
  }

  /** No complete line is written behind a dirty file. */
  ghost predicate Orderly(cfg: Config, c: Codec<Entry>, hs: seq<Happening>)
    requires Possible(cfg, c, hs)
  {
    |hs| > 0 ==>
      var w := WorldAfter(cfg, c, hs[..|hs| - 1]);
      Orderly(cfg, c, hs[..|hs| - 1]) && !(WritesLine(c, w, hs[|hs| - 1]) && Dirty(c, w))
  }

  // ----- answers

  /** The commands answered so far, in order. */
  function Answers(hs: seq<Happening>): seq<Stamp> {
    if |hs| == 0 then []
    else
      var before, last := Answers(hs[..|hs| - 1]), hs[|hs| - 1];
      if last.Served? || last.ShortWrite? then before + [last.stamp] else before
  }

  predicate AllWhole(hs: seq<Happening>) {
    forall i :: 0 <= i < |hs| ==> !hs[i].ShortWrite?
  }

  function Picked(log: seq<Stamp>, answered: seq<bool>): seq<Stamp>
    requires |log| == |answered|
  {
    if |log| == 0 then []
    else
      var n := |log| - 1;
      Picked(log[..n], answered[..n]) + if answered[n] then [log[n]] else []
  }

  lemma PickedAppend(log: seq<Stamp>, answered: seq<bool>, st: Stamp, b: bool)
    requires |log| == |answered|
    ensures Picked(log + [st], answered + [b]) == Picked(log, answered) + if b then [st] else []
  {
    assert (log + [st])[..|log|] == log && (answered + [b])[..|log|] == answered;
  }

  lemma AnswersStep(cfg: Config, c: Codec<Entry>, w: World, h: Happening)
    requires Enabled(cfg, c, w, h) && |w.answered| == |w.log|
    ensures var w' := Next(cfg, c, w, h);
            && |w'.answered| == |w'.log|
            && Picked(w'.log, w'.answered) ==
               Picked(w.log, w.answered) + if h.Served? then [h.stamp] else []
  {
    hide Permitted, Apply, Parse, Picked;
    if Writes(h) {
      PickedAppend(w.log, w.answered, h.stamp, h.Served?);
    }
  }

  /** The log holds every answered command, in order, if and only if no write fell short. */
  lemma {:induction false} AnswersLogged(cfg: Config, c: Codec<Entry>, hs: seq<Happening>)
    requires Possible(cfg, c, hs)
    ensures var w := WorldAfter(cfg, c, hs);
            && |w.answered| == |w.log|
            && |Picked(w.log, w.answered)| <= |Answers(hs)|
            && (Picked(w.log, w.answered) == Answers(hs) <==> AllWhole(hs))
            && (!AllWhole(hs) ==> |Picked(w.log, w.answered)| < |Answers(hs)|)
  {
    hide Enabled, Next;
    if |hs| > 0 {
      var init, h := hs[..|hs| - 1], hs[|hs| - 1];
      AnswersLogged(cfg, c, init);
      AnswersStep(cfg, c, WorldAfter(cfg, c, init), h);
      assert AllWhole(hs) <==> AllWhole(init) && !h.ShortWrite? by { assert hs == init + [h]; }
    }
  }

  // ----- what file and signer have in common

  /** The file holds the logged events, and behind them what incomplete writes left. */
  ghost predicate FileHolds(c: Codec<Entry>, w: World, torn: string) {
    w.file == Render(c, EntriesOf(w.log)) + torn && Scrap(c, torn)
  }

  /** The running signer is where the events it believes in lead. */
  ghost predicate Follows(c: Codec<Entry>, p: Process, believed: seq<Stamp>) {
    && p.state == StateOf(believed)
    && p.head == HeadOf(c, EntriesOf(believed))
    && p.seqNo == |believed|
  }

  ghost predicate WorldInv(cfg: Config, c: Codec<Entry>, w: World) {
    && ValidRun(cfg, w.log)
    && |w.answered| == |w.log|
    && (exists torn :: FileHolds(c, w, torn))
    && (w.process.Some? ==> Follows(c, w.process.value, w.believed))
  }

  lemma FollowsOn(c: Codec<Entry>, p: Process, believed: seq<Stamp>, st: Stamp)
    requires Follows(c, p, believed)
    ensures Follows(c, Advanced(c, p, st), believed + [st])
    ensures var entries := EntriesOf(believed);
            NextLine(c, p, st) == LineOf(c, HeadOf(c, entries), |entries| + 1, EntryOf(st)) + "\n"
  {
    hide Apply, HeadOf, LineOf;
    assert (believed + [st])[..|believed|] == believed;
    EntriesLength(believed);
    assert EntriesOf(believed + [st]) == EntriesOf(believed) + [EntryOf(st)];
    RenderAppend(c, EntriesOf(believed), EntryOf(st));
  }

  /** A signer in step with its file is in the state of the log. */
  lemma CleanState(c: Codec<Entry>, w: World)
    requires w.process.Some? && Follows(c, w.process.value, w.believed) && EntriesOf(w.believed) == EntriesOf(w.log)
    ensures Follows(c, w.process.value, w.log)
  {
    hide StateOf, HeadOf, Replay, EntriesOf;
    ReplayIsStateOf(w.believed);
    ReplayIsStateOf(w.log);
    EntriesLength(w.believed);
    EntriesLength(w.log);
  }

  /** A complete line written to a file that is in step with the signer extends the log. */
  lemma LineExtends(cfg: Config, c: Codec<Entry>, w: World, st: Stamp)
    requires Sound(c) && WorldInv(cfg, c, w) && MayRecord(cfg, c, w, st) && !Dirty(c, w)
    ensures ValidRun(cfg, w.log + [st])
    ensures w.file + NextLine(c, w.process.value, st) == Render(c, EntriesOf(w.log + [st])) + ""
  {
    hide Permitted, Apply, Sound, Render, ValidRun, StateOf, HeadOf, EntriesOf, LineOf;
    CleanState(c, w);
    ExtendRun(cfg, w.log, st);
    RenderAppend(c, EntriesOf(w.log), EntryOf(st));
    EntriesLength(w.log);
  }

  lemma LineStep(cfg: Config, c: Codec<Entry>, w: World, h: Happening)
    requires Sound(c) && WorldInv(cfg, c, w) && Enabled(cfg, c, w, h) && WritesLine(c, w, h) && !Dirty(c, w)
    ensures WorldInv(cfg, c, Next(cfg, c, w, h))
  {
    hide Permitted, Apply, Sound, Render, ValidRun, HeadOf, EntriesOf, NextLine, Advanced, Follows, Scrap, Dirty;
    LineExtends(cfg, c, w, h.stamp);
    FollowsOn(c, w.process.value, w.believed, h.stamp);
    NoScrap(c);
    assert FileHolds(c, Next(cfg, c, w, h), "");
  }

  /** An incomplete line is one more piece behind the logged ones, whatever stands there already. */
  lemma PieceStep(cfg: Config, c: Codec<Entry>, w: World, h: Happening)
    requires Sound(c) && WorldInv(cfg, c, w) && Enabled(cfg, c, w, h) && Writes(h) && !WritesLine(c, w, h)
    ensures WorldInv(cfg, c, Next(cfg, c, w, h))
  {
    hide Permitted, Apply, Sound, Render, ValidRun, HeadOf, EntriesOf, Advanced, Follows, Scrap, LineOf, NextLine;
    var p := w.process.value;
    var torn :| FileHolds(c, w, torn);
    FollowsOn(c, p, w.believed, h.stamp);
    var line := LineOf(c, HeadOf(c, EntriesOf(w.believed)), |EntriesOf(w.believed)| + 1, EntryOf(h.stamp));
    var piece := line[..h.kept];
    assert NextLine(c, p, h.stamp)[..h.kept] == piece;
    ScrapGrows(c, torn, EntriesOf(w.believed), EntryOf(h.stamp), h.kept);
    assert w.file + piece == Render(c, EntriesOf(w.log)) + (torn + piece);
    assert FileHolds(c, Next(cfg, c, w, h), torn + piece);
  }

  /** What opening the file gives, as long as it holds the logged events. */
  lemma FileReopens(cfg: Config, c: Codec<Entry>, w: World)
    requires Sound(c) && WorldInv(cfg, c, w)
    ensures Parse(c, w.file).Ok? <==> AllFit(c, EntriesOf(w.log))
    ensures Parse(c, w.file).Ok? ==>
              && Parse(c, w.file).value.events == EntriesOf(w.log)
              && Parse(c, w.file).value.head == HeadOf(c, EntriesOf(w.log))
              && Complete(w.file) == Render(c, EntriesOf(w.log))
  {
    hide Sound, Render, ValidRun, StateOf, HeadOf, EntriesOf, AllFit, Parse, Complete;
    var torn :| FileHolds(c, w, torn);
    ReopenExactly(c, EntriesOf(w.log), torn);
    CompleteRender(c, EntriesOf(w.log), torn);
  }

  /** Restarting works exactly when every written body leaves room for the hash and the tab. */
  lemma RestartStep(cfg: Config, c: Codec<Entry>, w: World)
    requires Sound(c) && WorldInv(cfg, c, w) && w.process.None?
    ensures var w' := Next(cfg, c, w, Restarted);
            && WorldInv(cfg, c, w')
            && w'.log == w.log && w'.answered == w.answered
            && (w'.process.Some? <==> AllFit(c, EntriesOf(w.log)))
            && (w'.process.Some? ==> !Dirty(c, w') && Follows(c, w'.process.value, w.log))
  {
    hide Sound, Render, ValidRun, StateOf, HeadOf, EntriesOf, AllFit, Parse, Complete, Scrap, Replay;
    FileReopens(cfg, c, w);
    ReplayIsStateOf(w.log);
    EntriesLength(w.log);
    NoScrap(c);
    var w' := Next(cfg, c, w, Restarted);
    if w'.process.Some? {
      assert w'.file == Render(c, EntriesOf(w.log)) + "";
      assert FileHolds(c, w', "");
    }
  }

  lemma WorldStep(cfg: Config, c: Codec<Entry>, w: World, h: Happening)
    requires Sound(c) && WorldInv(cfg, c, w) && Enabled(cfg, c, w, h) && !(WritesLine(c, w, h) && Dirty(c, w))
    ensures WorldInv(cfg, c, Next(cfg, c, w, h))
  {
    hide WritesLine, Dirty, Sound, Render, ValidRun, EntriesOf, MayRecord, Follows, Scrap;
    if Writes(h) {
      if WritesLine(c, w, h) {
        LineStep(cfg, c, w, h);
      } else {
        PieceStep(cfg, c, w, h);
      }
    } else if h.Stopped? {
      var torn :| FileHolds(c, w, torn);
      assert FileHolds(c, w.(process := None), torn);
    } else {
      RestartStep(cfg, c, w);
    }
  }

  lemma {:induction false} WorldRun(cfg: Config, c: Codec<Entry>, hs: seq<Happening>)
    requires Sound(c) && Possible(cfg, c, hs) && Orderly(cfg, c, hs)
    ensures WorldInv(cfg, c, WorldAfter(cfg, c, hs))
  {
    if |hs| == 0 {
      NoScrap(c);
      assert FileHolds(c, Start(), "");
    } else {
      hide WorldInv, Enabled, Next, Sound, WritesLine, Dirty;
      WorldRun(cfg, c, hs[..|hs| - 1]);
      WorldStep(cfg, c, WorldAfter(cfg, c, hs[..|hs| - 1]), hs[|hs| - 1]);
    }
  }

  /**
   Crash refinement: whatever crashes and failing writes happened, also in the middle of a
   line and several in a row, as long as no complete line was written behind a dirty file: the
   log of completely written events is a valid run; a running signer in step with its file is
   in that run's state; and a stopped one restarts into it, with a file that accepts further
   appends, exactly when every written body fits a parser line.
   */
  lemma CrashRefinement(cfg: Config, c: Codec<Entry>, hs: seq<Happening>)
    requires Sound(c) && Possible(cfg, c, hs) && Orderly(cfg, c, hs)
    ensures var w := WorldAfter(cfg, c, hs);
            && ValidRun(cfg, w.log)
            && (w.process.Some? && !Dirty(c, w) ==> Follows(c, w.process.value, w.log))
            && (w.process.None? ==>
                  var w' := Next(cfg, c, w, Restarted);
                  && w'.log == w.log
                  && (w'.process.Some? <==> AllFit(c, EntriesOf(w.log)))
                  && (w'.process.Some? ==> !Dirty(c, w') && Follows(c, w'.process.value, w.log)))
  {
    hide Sound, ValidRun, Parse, Render, EntriesOf, Follows;
    WorldRun(cfg, c, hs);
    var w := WorldAfter(cfg, c, hs);
    if w.process.None? {
      RestartStep(cfg, c, w);
    } else if !Dirty(c, w) {
      CleanState(c, w);
    }
  }

  // ----- journals that do not open any more

  /** No restart brings the signer back. */
  ghost predicate LockedOut(c: Codec<Entry>, w: World) {
    Parse(c, w.file).Err?
  }

  lemma LockedOutStep(cfg: Config, c: Codec<Entry>, w: World, h: Happening)
    requires LockedOut(c, w) && Enabled(cfg, c, w, h)
    ensures LockedOut(c, Next(cfg, c, w, h))
    ensures h.Restarted? ==> Next(cfg, c, w, h).process.None?
  {
    hide Parse, Permitted, Apply;
    if Writes(h) {
      var line := NextLine(c, w.process.value, h.stamp);
      NeverOpensAgain(c, w.file, line);
      if !h.Served? {
        NeverOpensAgain(c, w.file, line[..h.kept]);
      }
    }
  }

  /** Once locked out, always locked out, whatever happens next. */
  lemma {:induction false} LockedOutForever(cfg: Config, c: Codec<Entry>, hs: seq<Happening>, k: nat)
    requires Possible(cfg, c, hs) && k <= |hs|
    ensures Possible(cfg, c, hs[..k])
    ensures LockedOut(c, WorldAfter(cfg, c, hs[..k])) ==> LockedOut(c, WorldAfter(cfg, c, hs))
  {
    hide Enabled, Next, LockedOut;
    if k == |hs| {
      assert hs[..k] == hs;
    } else {
      var init := hs[..|hs| - 1];
      assert init[..k] == hs[..k];
      LockedOutForever(cfg, c, init, k);
      if LockedOut(c, WorldAfter(cfg, c, init)) {
        LockedOutStep(cfg, c, WorldAfter(cfg, c, init), hs[|hs| - 1]);
      }
    }
  }

  /** Writing a complete line behind a dirty file locks the signer out, short of a collision. */
  lemma DisorderLocksOut(cfg: Config, c: Codec<Entry>, w: World, h: Happening) returns (x: string, y: string)
    requires Sound(c) && WorldInv(cfg, c, w) && Enabled(cfg, c, w, h) && WritesLine(c, w, h) && Dirty(c, w)
    ensures LockedOut(c, Next(cfg, c, w, h)) || Collide(c, x, y)
  {
    hide Sound, Parse, Render, HeadOf, LineOf, Permitted, Apply, Scrap, EntriesOf, ValidRun, NextLine, Advanced;
    var torn :| FileHolds(c, w, torn);
    var line := NextLine(c, w.process.value, h.stamp);
    FollowsOn(c, w.process.value, w.believed, h.stamp);
    assert torn == "" ==> w.file == Render(c, EntriesOf(w.log));
    x, y := StaleAppend(c, EntriesOf(w.log), EntriesOf(w.believed), torn, EntryOf(h.stamp));
    assert Next(cfg, c, w, h).file == w.file + line;
  }

  /** Over runs: the journal of a run that was not orderly does not open any more. */
  lemma {:induction false} DisorderLocksOutForever(cfg: Config, c: Codec<Entry>, hs: seq<Happening>)
    returns (x: string, y: string)
    requires Sound(c) && Possible(cfg, c, hs) && !Orderly(cfg, c, hs)
    ensures LockedOut(c, WorldAfter(cfg, c, hs)) || Collide(c, x, y)
  {
    hide Enabled, Next, LockedOut, Sound, WritesLine, Dirty, WorldInv;
    var init, h := hs[..|hs| - 1], hs[|hs| - 1];
    if Orderly(cfg, c, init) {
      WorldRun(cfg, c, init);
      x, y := DisorderLocksOut(cfg, c, WorldAfter(cfg, c, init), h);
    } else {
      x, y := DisorderLocksOutForever(cfg, c, init);
      if LockedOut(c, WorldAfter(cfg, c, init)) {
        LockedOutStep(cfg, c, WorldAfter(cfg, c, init), h);
      }
    }
  }

  // ----- what survives

  /**
   Opening the file gives the logged events, which are a valid run and hold every command
   that was answered, in order: the restarted signer has forgotten nothing it promised.
   */
  ghost predicate Recovers(cfg: Config, c: Codec<Entry>, hs: seq<Happening>)
    requires Possible(cfg, c, hs)
  {
    var w := WorldAfter(cfg, c, hs);
    && Parse(c, w.file).Ok? && Parse(c, w.file).value.events == EntriesOf(w.log)
    && ValidRun(cfg, w.log) && Replay(Parse(c, w.file).value.events) == StateOf(w.log)
    && |w.answered| == |w.log| && Picked(w.log, w.answered) == Answers(hs)
  }

  /**
   What was answered survives, for every course of crashes, failing and short writes and
   restarts, if and only if no write fell short, every complete line has a body that fits, and
   no complete line was written behind a dirty file, short of a collision.
   */
  lemma SurvivesExactly(cfg: Config, c: Codec<Entry>, hs: seq<Happening>) returns (x: string, y: string)
    requires Sound(c) && Possible(cfg, c, hs)
    ensures AllWhole(hs) && AllFit(c, EntriesOf(WorldAfter(cfg, c, hs).log)) && Orderly(cfg, c, hs) ==>
              Recovers(cfg, c, hs)
    ensures Recovers(cfg, c, hs) ==>
              || (AllWhole(hs) && AllFit(c, EntriesOf(WorldAfter(cfg, c, hs).log)) && Orderly(cfg, c, hs))
              || Collide(c, x, y)
  {
    hide Sound, Parse, ValidRun, StateOf, EntriesOf, Replay, Picked, Answers, AllWhole, AllFit, Orderly, Possible;
    x, y := "", "";
    AnswersLogged(cfg, c, hs);
    if Orderly(cfg, c, hs) {
      WorldRun(cfg, c, hs);
      FileReopens(cfg, c, WorldAfter(cfg, c, hs));
      ReplayIsStateOf(WorldAfter(cfg, c, hs).log);
    } else {
      x, y := DisorderLocksOutForever(cfg, c, hs);
    }
  }

  // ----- a body that is too long

  /** One served command with a body over the parser's bound, and no restart succeeds any more. */
  lemma LongCommandLocksOut(cfg: Config, c: Codec<Entry>, hs: seq<Happening>, st: Stamp)
    requires Sound(c) && Possible(cfg, c, hs) && Orderly(cfg, c, hs) && !Dirty(c, WorldAfter(cfg, c, hs))
    requires MayRecord(cfg, c, WorldAfter(cfg, c, hs), st)
    requires |BodyOf(c, |WorldAfter(cfg, c, hs).log| + 1, EntryOf(st))| > MAX_LINE - 65
    ensures LockedOut(c, Next(cfg, c, WorldAfter(cfg, c, hs), Served(st)))
  {
    hide Sound, Parse, Render, HeadOf, ValidRun, StateOf, EntriesOf, Permitted, Apply, BodyOf, Follows, Dirty;
    WorldRun(cfg, c, hs);
    var w := WorldAfter(cfg, c, hs);
    LineExtends(cfg, c, w, st);
    EntriesLength(w.log);
    var entries := EntriesOf(w.log + [st]);
    LastEntry(w.log, st);
    assert !FitsLine(c, |w.log| + 1, entries[|w.log|]);
    ReopenExactly(c, entries, "");
  }

  lemma LastEntry(log: seq<Stamp>, st: Stamp)
    ensures |EntriesOf(log + [st])| == |log| + 1 && EntriesOf(log + [st])[|log|] == EntryOf(st)
  {
  }

  /**
   The same over runs: after a served command with such a body, no restart in any continuation
   brings the signer back.
   */
  lemma ServedLongLocksOut(cfg: Config, c: Codec<Entry>, hs: seq<Happening>, k: nat)
    requires Sound(c) && Possible(cfg, c, hs) && k < |hs| && hs[k].Served?
    requires Possible(cfg, c, hs[..k]) && Orderly(cfg, c, hs[..k]) && !Dirty(c, WorldAfter(cfg, c, hs[..k]))
    requires |BodyOf(c, |WorldAfter(cfg, c, hs[..k]).log| + 1, EntryOf(hs[k].stamp))| > MAX_LINE - 65
    ensures LockedOut(c, WorldAfter(cfg, c, hs))
    ensures WorldAfter(cfg, c, hs).process.None? ==>
              Next(cfg, c, WorldAfter(cfg, c, hs), Restarted).process.None?
  {
    hide *;
    StepAt(cfg, c, hs, k);
    ServedRecords(cfg, c, WorldAfter(cfg, c, hs[..k]), hs[k]);
    LongCommandLocksOut(cfg, c, hs[..k], hs[k].stamp);
    LockedOutForever(cfg, c, hs, k + 1);
    if WorldAfter(cfg, c, hs).process.None? {
      RestartEnabled(cfg, c, WorldAfter(cfg, c, hs));
      LockedOutStep(cfg, c, WorldAfter(cfg, c, hs), Restarted);
    }
  }

  /** What happened at step `k`, and what it left behind. */
  lemma StepAt(cfg: Config, c: Codec<Entry>, hs: seq<Happening>, k: nat)
    requires Possible(cfg, c, hs) && k < |hs|
    ensures Possible(cfg, c, hs[..k]) && Possible(cfg, c, hs[..k + 1])
    ensures Enabled(cfg, c, WorldAfter(cfg, c, hs[..k]), hs[k])
    ensures WorldAfter(cfg, c, hs[..k + 1]) == Next(cfg, c, WorldAfter(cfg, c, hs[..k]), hs[k])
  {
    hide Enabled, Next;
    PossiblePrefix(cfg, c, hs, k + 1);
    assert hs[..k + 1][..k] == hs[..k];
  }

  lemma {:induction false} PossiblePrefix(cfg: Config, c: Codec<Entry>, hs: seq<Happening>, k: nat)
    requires Possible(cfg, c, hs) && k <= |hs|
    ensures Possible(cfg, c, hs[..k])
  {
    hide Enabled, Next;
    if k == |hs| {
      assert hs[..k] == hs;
    } else {
      assert hs[..|hs| - 1][..k] == hs[..k];
      PossiblePrefix(cfg, c, hs[..|hs| - 1], k);
    }
  }

  lemma ServedRecords(cfg: Config, c: Codec<Entry>, w: World, h: Happening)
    requires Enabled(cfg, c, w, h) && h.Served?
    ensures MayRecord(cfg, c, w, h.stamp)
  {
    hide MayRecord;
  }

  lemma RestartEnabled(cfg: Config, c: Codec<Entry>, w: World)
    requires w.process.None?
    ensures Enabled(cfg, c, w, Restarted)
  {
  }

  // ----- a command that does it

  function Padding(n: nat): string {
    seq(n, _ => 'x')
  }

  /** The tightening that changes nothing but the version, with a text nobody asked for. */
  function Padded(cfg: Config, p: Policy, n: nat): Policy {
    p.(version := p.version + 1, prev := Some(cfg.policyHash(p)), others := Padding(n))
  }

  function PolicyEntry(t: int, p: Policy): Entry {
    Entry(t, PolicyChanged(p, App))
  }

  /** A field the policy check does not know is written into the line character by character. */
  ghost predicate Spells(c: Codec<Entry>) {
    forall n: nat, t: int, p: Policy, k: nat ::
      |c.encode(n, PolicyEntry(t, p.(others := Padding(k))))| == |c.encode(n, PolicyEntry(t, p.(others := "")))| + k
  }

  /**
   `policy.tighten` journals the received object, and nothing looks at fields it does not
   know. So from every state of a signer that has a policy and a short enough line for it,
   there is such a command from the app that is served, and locks the signer out for good.
   */
  lemma PolicyLocksOut(cfg: Config, c: Codec<Entry>, hs: seq<Happening>, t: int) returns (st: Stamp)
    requires Sound(c) && Spells(c) && Possible(cfg, c, hs) && Orderly(cfg, c, hs)
    requires var w := WorldAfter(cfg, c, hs);
             && w.process.Some? && !Dirty(c, w) && NotAfter(w.log, t) && Ready(w.process.value.state)
             && |BodyOf(c, |w.log| + 1, PolicyEntry(t, Padded(cfg, w.process.value.state.policy.value, 0)))| <= MAX_LINE
    ensures st.who == App && st.event.PolicyChanged?
    ensures Possible(cfg, c, hs + [Served(st)])
    ensures forall later :: Possible(cfg, c, hs + [Served(st)] + later) ==>
              LockedOut(c, WorldAfter(cfg, c, hs + [Served(st)] + later))
  {
    hide Sound, Spells, Orderly, LockedOut, Dirty, Next, WorldInv, Padded, Apply, Guard;
    WorldRun(cfg, c, hs);
    var w := WorldAfter(cfg, c, hs);
    var s := w.process.value.state;
    var p := s.policy.value;
    CleanIsLogged(cfg, c, w);
    PolicyAcceptable(cfg, w.log);
    var n := MAX_LINE - |BodyOf(c, |w.log| + 1, PolicyEntry(t, Padded(cfg, p, 0)))|;
    PaddedLength(cfg, c, p, |w.log| + 1, t, n);
    PaddedPermitted(cfg, s, t, n);
    st := Stamp(App, t, t, PolicyChanged(Padded(cfg, p, n), App));
    assert EntryOf(st) == PolicyEntry(t, Padded(cfg, p, n));
    var next := hs + [Served(st)];
    assert next[..|hs|] == hs;
    LongCommandLocksOut(cfg, c, hs, st);
    forall later | Possible(cfg, c, next + later)
      ensures LockedOut(c, WorldAfter(cfg, c, next + later))
    {
      assert (next + later)[..|next|] == next;
      LockedOutForever(cfg, c, next + later, |next|);
    }
  }

  lemma CleanIsLogged(cfg: Config, c: Codec<Entry>, w: World)
    requires WorldInv(cfg, c, w) && w.process.Some? && !Dirty(c, w)
    ensures ValidRun(cfg, w.log) && w.process.value.state == StateOf(w.log) && w.process.value.seqNo == |w.log|
  {
    CleanState(c, w);
  }

  lemma PaddedLength(cfg: Config, c: Codec<Entry>, p: Policy, k: nat, t: int, n: nat)
    requires Spells(c)
    ensures |BodyOf(c, k, PolicyEntry(t, Padded(cfg, p, n)))| == |BodyOf(c, k, PolicyEntry(t, Padded(cfg, p, 0)))| + n
  {
    var q := Padded(cfg, p, 0);
    assert Padding(0) == "";
    assert Padded(cfg, p, n) == q.(others := Padding(n)) && q == q.(others := "");
  }

  lemma PaddedPermitted(cfg: Config, s: State, t: int, n: nat)
    requires Ready(s) && Acceptable(s.policy.value, cfg.dev)
    ensures Permitted(cfg, s, App, t, PolicyChanged(Padded(cfg, s.policy.value, n), App))
  {
  }
}
