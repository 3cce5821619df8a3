/**
  The position clock of DLNA playback: a start stamp and a count of milliseconds,
  frozen with truncation at every pause and stop.

  Times are in microseconds and never zero; positions are in milliseconds.
 */
module PlayClock {

  datatype PlayState = Stopped | Playing | Paused

  datatype Uri = NoUri | Uri(text: string)

  /** The variables the four operations read and write. `startUs` is 0 when no time is running. */
  datatype Deck = Deck(
    state: PlayState, accumulatedMs: int, startUs: int,
    savedSec: int, savedUri: Uri, trackUri: Uri, playingUri: Uri)

  const Idle := Deck(Stopped, 0, 0, 0, NoUri, NoUri, NoUri)

  datatype Op = SetUri(uri: string) | Play(started: bool) | Pause | Stop

  /** Elapsed whole milliseconds. */
  function Elapsed(startUs: int, now: int): int {
    (now - startUs) / 1000
  }

  function Position(d: Deck, now: int): int {
    if d.state == Playing && d.startUs > 0 then d.accumulatedMs + Elapsed(d.startUs, now) else d.accumulatedMs
  }

  function Freeze(d: Deck, now: int): Deck {
    if d.startUs > 0 then d.(accumulatedMs := d.accumulatedMs + Elapsed(d.startUs, now), startUs := 0) else d
  }

  /** Start the pipeline at a position. When it does not start, only the state is set. */
  function DoPlay(d: Deck, seekSec: int, started: bool, now: int): Deck {
    if started
    then d.(state := Playing, accumulatedMs := seekSec * 1000, startUs := now, playingUri := d.trackUri)
    else d.(state := Stopped)
  }

  /** The track that is set is the one in the pipeline. */
  predicate SameTrack(d: Deck) {
    d.playingUri.Uri? && d.trackUri.Uri? && d.playingUri == d.trackUri
  }

  /** Another track has been set than the one in the pipeline. */
  predicate OtherTrack(d: Deck) {
    d.playingUri.Uri? && d.trackUri.Uri? && d.playingUri != d.trackUri
  }

  function Save(d: Deck): Deck {
    d.(savedSec := d.accumulatedMs / 1000, savedUri := d.trackUri)
  }

  function Apply(d: Deck, op: Op, now: int): Deck {
    match op
    case SetUri(uri) => d.(savedSec := 0, trackUri := Uri(uri))
    case Play(started) =>
      if d.state == Playing then
        if SameTrack(d) then d else DoPlay(d, d.savedSec, started, now).(savedSec := 0)
      else if d.state == Paused then
        if OtherTrack(d) then DoPlay(d, d.savedSec, started, now).(savedSec := 0)
        else d.(state := Playing, startUs := now)
      else if d.trackUri == NoUri then d.(savedSec := 0)
      else DoPlay(d, if d.savedUri == d.trackUri && d.savedSec > 0 then d.savedSec else 0, started, now).(savedSec := 0)
    case Pause =>
      if d.state == Playing then Save(Freeze(d, now)).(state := Paused) else d
    case Stop => Save(Freeze(d, now)).(state := Stopped)
  }

  // ----- the stamp and the state -----

  /** Time is running exactly while the state says so. */
  predicate StampOk(d: Deck) {
    && d.startUs >= 0
    && (d.state == Playing <==> d.startUs != 0)
    && (d.state != Stopped ==> d.trackUri.Uri? && d.playingUri.Uri?)
  }

  /** All of it, except that a stamp may outlive playback: what holds of every deck a run can lead to. */
  predicate Placed(d: Deck) {
    && d.startUs >= 0
    && (d.state == Playing ==> d.startUs != 0) && (d.state == Paused ==> d.startUs == 0)
    && (d.state != Stopped ==> d.trackUri.Uri? && d.playingUri.Uri?)
  }

  /** Play is pressed while another track is playing, and the new one does not start. */
  predicate FailedSwitch(d: Deck, op: Op) {
    d.state == Playing && op.Play? && !op.started && !SameTrack(d)
  }

  /** An operation keeps stamp and state together exactly when it is no failed switch. */
  lemma StampKept(d: Deck, op: Op, now: int)
    requires StampOk(d) && now > 0
    ensures StampOk(Apply(d, op, now)) <==> !FailedSwitch(d, op)
  {
  }

  /** The shortest run that separates them: the stamp outlives playback, and a later stop counts the silence. */
  lemma FailedSwitchCountsSilence()
    ensures var d := Apply(Apply(Apply(Idle, SetUri("a"), 1), Play(true), 1), SetUri("b"), 1);
            var failed := Apply(d, Play(false), 1);
            && FailedSwitch(d, Play(false)) && failed.state == Stopped && failed.startUs == 1
            && Position(failed, 60_000_001) == 0
            && Position(Apply(failed, Stop, 60_000_001), 60_000_001) == 60_000
  {
  }

  // ----- going on, and starting over -----

  /**
    Playing on after a pause takes up the position exactly; after a stop, at its last whole
    second, also when the track that is set, and will be started, is not the one that played.
   */
  lemma PlayResumes(d: Deck, pausedAt: int, resumedAt: int)
    requires StampOk(d) && d.trackUri.Uri? && 0 < pausedAt <= resumedAt && 0 <= Position(d, pausedAt)
    ensures d.state == Playing && SameTrack(d) ==>
              Position(Apply(Apply(d, Pause, pausedAt), Play(true), resumedAt), resumedAt) == Position(d, pausedAt)
    ensures var d' := Apply(Apply(d, Stop, pausedAt), Play(true), resumedAt);
            Position(d', resumedAt) == Position(d, pausedAt) / 1000 * 1000 && d'.playingUri == d.trackUri
  {
  }

  /** Pauses and stops only. */
  predicate Quiet(ops: seq<Moment>) {
    forall i :: 0 <= i < |ops| ==> ops[i].op.Pause? || ops[i].op.Stop?
  }

  predicate Stops(ops: seq<Moment>) {
    exists i :: 0 <= i < |ops| && ops[i].op.Stop?
  }

  /** The deck after further operations. */
  function Continue(d: Deck, ops: seq<Moment>): Deck {
    if ops == [] then d else Apply(Continue(d, ops[..|ops| - 1]), ops[|ops| - 1].op, ops[|ops| - 1].at)
  }

  /** One of them freezes the position or saves it. */
  predicate Freezes(d: Deck, ops: seq<Moment>) {
    (d.state != Stopped && ops != []) || Stops(ops)
  }

  /** When the first of them does, or `now` if none does. */
  function FirstFreeze(d: Deck, ops: seq<Moment>, now: int): int {
    if !Freezes(d, ops) then now
    else if Freezes(d, ops[..|ops| - 1]) then FirstFreeze(d, ops[..|ops| - 1], now)
    else ops[|ops| - 1].at
  }

  /** The position then, with a stretch that may be silence if the stamp has outlived playback. */
  function Held(d: Deck, ops: seq<Moment>, now: int): int {
    if d.startUs > 0 then d.accumulatedMs + Elapsed(d.startUs, FirstFreeze(d, ops, now)) else d.accumulatedMs
  }

  /** Where stamp and state agree, that is the position shown when the first of them comes. */
  lemma {:induction false} HeldIsShown(d: Deck, ops: seq<Moment>, now: int)
    requires StampOk(d)
    ensures Held(d, ops, now) == Position(d, if ops == [] then now else ops[0].at)
  {
    if d.state != Stopped && |ops| > 1 {
      HeldIsShown(d, ops[..|ops| - 1], now);
    }
  }

  lemma StopsLast(ops: seq<Moment>)
    requires ops != []
    ensures Stops(ops) <==> Stops(ops[..|ops| - 1]) || ops[|ops| - 1].op.Stop?
  {
    var init := ops[..|ops| - 1];
    if Stops(init) {
      var i :| 0 <= i < |init| && init[i].op.Stop?;
      assert ops[i].op.Stop?;
    }
  }

  /** A track has been set, and pauses and stops have followed. */
  lemma {:induction false} AfterQuiet(d: Deck, uri: string, ops: seq<Moment>, now: int)
    requires Placed(d) && Quiet(ops)
    ensures var set', q := Apply(d, SetUri(uri), 0), Continue(Apply(d, SetUri(uri), 0), ops);
            var held := Held(d, ops, now);
            && (!Freezes(d, ops) ==> q == set')
            && (Freezes(d, ops) ==>
                  && q.accumulatedMs == held && q.startUs == 0
                  && q.trackUri == Uri(uri) && q.playingUri == d.playingUri
                  && q.state == (if Stops(ops) then Stopped else Paused)
                  && (if Stops(ops) || d.state == Playing then q.savedSec == held / 1000 && q.savedUri == Uri(uri)
                      else q.savedSec == 0))
    decreases |ops|
  {
    if ops != [] {
      AfterQuiet(d, uri, ops[..|ops| - 1], now);
      StopsLast(ops);
      hide Stops;
    }
  }

  /** Where a track starts that is set on deck `d` and played after pauses and stops. */
  function StartsAt(d: Deck, uri: string, ops: seq<Moment>, now: int): int {
    var held := Held(d, ops, now);
    if Stops(ops) then held / 1000 * 1000
    else if d.state == Stopped then 0
    else if d.playingUri == Uri(uri) then held
    else if d.state == Playing && ops != [] then held / 1000 * 1000
    else 0
  }

  /**
    The old position is carried over to the track: it is stopped in between, or it is the one
    in the pipeline, or another one was playing and is paused in between.
   */
  predicate CarriesOver(d: Deck, uri: string, ops: seq<Moment>) {
    || Stops(ops)
    || (d.state != Stopped && d.playingUri == Uri(uri))
    || (d.state == Playing && ops != [])
  }

  /**
    Where a track starts that was set, on any deck a run can lead to, with any pauses and stops
    before it is played: from the beginning exactly if no position is carried over, or none
    worth a whole second, or none at all.
   */
  lemma SetUriThenPlay(d: Deck, uri: string, ops: seq<Moment>, now: int)
    requires Placed(d) && Quiet(ops) && now > 0 && 0 <= Held(d, ops, now)
    ensures var d' := Apply(Continue(Apply(d, SetUri(uri), 0), ops), Play(true), now);
            && d'.state == Playing && d'.playingUri == Uri(uri)
            && Position(d', now) == StartsAt(d, uri, ops, now)
            && (Position(d', now) == 0 <==>
                !CarriesOver(d, uri, ops) || Held(d, ops, now) == 0
                || (Held(d, ops, now) < 1000 && (Stops(ops) || d.playingUri != Uri(uri))))
  {
    AfterQuiet(d, uri, ops, now);
    NothingStops(ops);
    hide Continue;
    hide Stops;
  }

  lemma NothingStops(ops: seq<Moment>)
    ensures ops == [] ==> !Stops(ops)
  {
  }

  /** A minute into a track, setting the same track again and playing it does not start it over. */
  lemma SameTrackGoesOn()
    ensures var d := Apply(Apply(Idle, SetUri("a"), 1), Play(true), 1);
            var d' := Apply(Apply(d, SetUri("a"), 60_000_001), Play(true), 60_000_001);
            Position(d', 60_000_001) == 60_000
  {
  }

  /** A minute into a track, another one is set, the deck is stopped or paused, and the other starts at a minute. */
  lemma OtherTrackStartsThere(op: Op)
    requires op == Stop || op == Pause
    ensures var d := Apply(Apply(Apply(Idle, SetUri("a"), 1), Play(true), 1), SetUri("b"), 1);
            var d' := Apply(Apply(d, op, 60_000_001), Play(true), 60_000_001);
            d'.playingUri == Uri("b") && Position(d', 60_000_001) == 60_000
  {
  }

  /** Play would start a pipeline: not for a track that plays, or is paused and goes on. */
  predicate Starts(d: Deck) {
    d.trackUri.Uri? && !(d.state == Playing && SameTrack(d)) && !(d.state == Paused && !OtherTrack(d))
  }

  /** A start that fails stops, shows what was accumulated, and forgets the saved position: the next one starts from the beginning. */
  lemma FailedStartForgets(d: Deck, failedAt: int, now: int)
    requires Starts(d) && now > 0
    ensures var failed := Apply(d, Play(false), failedAt);
            && failed.state == Stopped && Position(failed, now) == d.accumulatedMs
            && failed.startUs == d.startUs && failed.playingUri == d.playingUri
            && Position(Apply(failed, Play(true), now), now) == 0
  {
  }

  /** Going on after a pause changes nothing but the state and the stamp. */
  lemma ResumeKeepsTheRest(d: Deck, started: bool, now: int)
    requires d.state == Paused && !OtherTrack(d)
    ensures var d' := Apply(d, Play(started), now);
            && d'.state == Playing && d'.startUs == now && d'.accumulatedMs == d.accumulatedMs
            && d'.savedSec == d.savedSec && d'.savedUri == d.savedUri
            && d'.trackUri == d.trackUri && d'.playingUri == d.playingUri
  {
  }

  /** Setting a track stores it and forgets the saved position; play without a track only forgets it. */
  lemma SetUriChangesOnly(d: Deck, uri: string, started: bool, now: int)
    ensures var d' := Apply(d, SetUri(uri), now);
            && d'.trackUri == Uri(uri) && d'.savedSec == 0 && d'.savedUri == d.savedUri && d'.playingUri == d.playingUri
            && d'.state == d.state && d'.accumulatedMs == d.accumulatedMs && d'.startUs == d.startUs
    ensures d.state == Stopped && d.trackUri == NoUri ==>
              var d' := Apply(d, Play(started), now);
              && d'.savedSec == 0 && d'.savedUri == d.savedUri && d'.playingUri == d.playingUri && d'.trackUri == NoUri
              && d'.state == Stopped && d'.accumulatedMs == d.accumulatedMs && d'.startUs == d.startUs
  {
  }

  /** Until a track is set nothing happens at all. */
  lemma {:induction false} NothingWithoutTrack(h: seq<Moment>)
    ensures RunDeck(h).trackUri == NoUri ==> RunDeck(h) == Idle
    decreases |h|
  {
    if h != [] {
      NothingWithoutTrack(h[..|h| - 1]);
    }
  }

  /** The comparison of the saved address with the one that is set never decides anything: a saved position is always for it. */
  lemma {:induction false} SavedIsForTrack(h: seq<Moment>)
    ensures RunDeck(h).savedSec != 0 ==> RunDeck(h).savedUri == RunDeck(h).trackUri
    decreases |h|
  {
    if h != [] {
      SavedIsForTrack(h[..|h| - 1]);
    }
  }

  // ----- true playing time -----

  /**
    What really was played since the last base: the base set by the last start, the time of
    the finished stretches, the start of the running one (0 if none), and how many stretches
    were ended by a pause or a stop.
   */
  datatype Truth = Truth(baseUs: int, doneUs: int, runningUs: int, freezes: nat)

  const Silence := Truth(0, 0, 0, 0)

  function Observe(t: Truth, before: Deck, op: Op, after: Deck, now: int): Truth {
    var ended := if t.runningUs != 0 then t.doneUs + now - t.runningUs else t.doneUs;
    match op
    case SetUri(_) => t
    case Play(started) =>
      if before.state == Playing && SameTrack(before) then t
      else if before.state == Paused && !OtherTrack(before) then t.(runningUs := now)
      else if before.trackUri == NoUri then t
      else if started then Truth(after.accumulatedMs * 1000, 0, now, 0)
      else t.(doneUs := ended, runningUs := 0)
    case _ =>
      if t.runningUs == 0 then t else Truth(t.baseUs, ended, 0, t.freezes + 1)
  }

  /** True position in microseconds. */
  function TrueUs(t: Truth, now: int): int {
    t.baseUs + t.doneUs + if t.runningUs != 0 then now - t.runningUs else 0
  }

  // ----- runs -----

  datatype Moment = Moment(op: Op, at: int)

  function RunDeck(h: seq<Moment>): Deck {
    if h == [] then Idle else Apply(RunDeck(h[..|h| - 1]), h[|h| - 1].op, h[|h| - 1].at)
  }

  function RunTruth(h: seq<Moment>): Truth {
    if h == [] then Silence
    else
      var init, m := h[..|h| - 1], h[|h| - 1];
      Observe(RunTruth(init), RunDeck(init), m.op, RunDeck(h), m.at)
  }

  function Last(h: seq<Moment>): int {
    if h == [] then 0 else h[|h| - 1].at
  }

  /** The clock runs forward from after zero. */
  predicate Ordered(h: seq<Moment>) {
    h == [] ||
    var init, m := h[..|h| - 1], h[|h| - 1];
    Ordered(init) && m.at > 0 && Last(init) <= m.at
  }

  /** Play starts a pipeline: a new base for the position. */
  predicate Bases(d: Deck, op: Op) {
    && op == Play(true) && d.trackUri.Uri?
    && !(d.state == Playing && SameTrack(d)) && !(d.state == Paused && !OtherTrack(d))
  }

  /** No switch has failed since the last base. */
  predicate CleanSinceBase(h: seq<Moment>) {
    h == [] ||
    var init, op := h[..|h| - 1], h[|h| - 1].op;
    Bases(RunDeck(init), op) || (CleanSinceBase(init) && !FailedSwitch(RunDeck(init), op))
  }

  /** No switch has failed since the last base or stop. */
  predicate CleanSinceStop(h: seq<Moment>) {
    h == [] ||
    var init, op := h[..|h| - 1], h[|h| - 1].op;
    Bases(RunDeck(init), op) || op == Stop || (CleanSinceStop(init) && !FailedSwitch(RunDeck(init), op))
  }

  // ----- what every run keeps -----

  /** What every run keeps. */
  predicate Loose(d: Deck, last: int) {
    Placed(d) && d.startUs <= last && 0 <= d.accumulatedMs && 0 <= d.savedSec
  }

  lemma StepLoose(d: Deck, last: int, op: Op, now: int)
    requires Loose(d, last) && now > 0 && last <= now
    ensures Loose(Apply(d, op, now), now)
  {
  }

  lemma {:induction false} RunLoose(h: seq<Moment>)
    requires Ordered(h)
    ensures Loose(RunDeck(h), Last(h))
    decreases |h|
  {
    if h != [] {
      var init, m := h[..|h| - 1], h[|h| - 1];
      RunLoose(init);
      StepLoose(RunDeck(init), Last(init), m.op, m.at);
    }
  }

  lemma StepStamp(d: Deck, last: int, op: Op, now: int)
    requires Loose(d, last) && now > 0 && last <= now
    ensures StampOk(Apply(d, op, now)) <==> Bases(d, op) || op == Stop || (StampOk(d) && !FailedSwitch(d, op))
  {
  }

  /** Over any run, time is running exactly while the state is PLAYING, if and only if no switch has failed since the last base or stop. */
  lemma {:induction false} StampExact(h: seq<Moment>)
    requires Ordered(h)
    ensures StampOk(RunDeck(h)) <==> CleanSinceStop(h)
    decreases |h|
  {
    if h != [] {
      var init, m := h[..|h| - 1], h[|h| - 1];
      StampExact(init);
      RunLoose(init);
      hide StampOk;
      hide FailedSwitch;
      hide Bases;
      StepStamp(RunDeck(init), Last(init), m.op, m.at);
    }
  }

  // ----- the bound -----

  /** The position never exceeds true playing time and trails it by less than a millisecond for each freeze and one more. */
  predicate Bounded(h: seq<Moment>, now: int) {
    var shown, played := Position(RunDeck(h), now) * 1000, TrueUs(RunTruth(h), now);
    shown <= played < shown + 1000 * (RunTruth(h).freezes + 1)
  }

  /** The deck and the truth agree on what is running, and every freeze has lost less than a millisecond. */
  predicate Agree(d: Deck, t: Truth) {
    && StampOk(d) && t.runningUs == d.startUs
    && 0 <= t.baseUs + t.doneUs - d.accumulatedMs * 1000 <= 999 * t.freezes
  }

  lemma StepAgrees(d: Deck, t: Truth, op: Op, now: int)
    requires Agree(d, t) && now > 0 && t.runningUs <= now && !FailedSwitch(d, op)
    ensures Agree(Apply(d, op, now), Observe(t, d, op, Apply(d, op, now), now))
  {
    StampKept(d, op, now);
  }

  lemma BaseAgrees(d: Deck, t: Truth, last: int, op: Op, now: int)
    requires Loose(d, last) && now > 0 && Bases(d, op)
    ensures Agree(Apply(d, op, now), Observe(t, d, op, Apply(d, op, now), now))
  {
  }

  lemma {:induction false} RunAgrees(h: seq<Moment>)
    requires Ordered(h) && CleanSinceBase(h)
    ensures Agree(RunDeck(h), RunTruth(h))
    decreases |h|
  {
    if h != [] {
      var init, m := h[..|h| - 1], h[|h| - 1];
      RunLoose(init);
      hide Apply;
      hide Observe;
      hide Bases;
      hide FailedSwitch;
      if Bases(RunDeck(init), m.op) {
        BaseAgrees(RunDeck(init), RunTruth(init), Last(init), m.op, m.at);
      } else {
        RunAgrees(init);
        StepAgrees(RunDeck(init), RunTruth(init), m.op, m.at);
      }
    }
  }

  /** Over any run whose last base is not followed by a failed switch, the bound holds from the last operation on. */
  lemma PositionBound(h: seq<Moment>, now: int)
    requires Ordered(h) && CleanSinceBase(h) && now > 0 && Last(h) <= now
    ensures RunDeck(h).state == Playing <==> RunDeck(h).startUs != 0
    ensures Bounded(h, now)
  {
    RunAgrees(h);
    RunLoose(h);
  }

  // ----- and only then -----

  /** A run of given operations, each `gap` after the one before. */
  function Spaced(ops: seq<Op>, gap: int): seq<Moment> {
    if ops == [] then []
    else
      var init := Spaced(ops[..|ops| - 1], gap);
      init + [Moment(ops[|ops| - 1], Last(init) + gap)]
  }

  /** `h` is a run of the operations `ops`. */
  predicate Asks(h: seq<Moment>, ops: seq<Op>) {
    |h| == |ops| && forall i :: 0 <= i < |h| ==> h[i].op == ops[i]
  }

  /** A deck in which a switch has failed: its stretch is missing from the position, or silence is counted in it. */
  predicate Spoilt(d: Deck, t: Truth, last: int, gap: int) {
    var missing := t.baseUs + t.doneUs - d.accumulatedMs * 1000;
    && d.state == Stopped && t.runningUs == 0 && d.trackUri.Uri?
    && (if d.startUs > 0 then gap <= missing <= last - d.startUs + 999 * t.freezes else missing < 0)
  }

  predicate CleanOrSpoilt(h: seq<Moment>, gap: int) {
    CleanSinceBase(h) || Spoilt(RunDeck(h), RunTruth(h), Last(h), gap)
  }

  lemma FailedSwitchSpoils(d: Deck, t: Truth, last: int, op: Op, now: int, gap: int)
    requires Agree(d, t) && Loose(d, last) && FailedSwitch(d, op) && last + gap <= now && gap > 0
    ensures Spoilt(Apply(d, op, now), Observe(t, d, op, Apply(d, op, now), now), now, gap)
  {
  }

  lemma StaysSpoilt(d: Deck, t: Truth, last: int, op: Op, now: int, gap: int)
    requires Spoilt(d, t, last, gap) && d.startUs >= 0 && !Bases(d, op)
    requires last + gap <= now && 1000 * (t.freezes + 1) <= gap
    ensures Spoilt(Apply(d, op, now), Observe(t, d, op, Apply(d, op, now), now), now, gap)
    ensures Observe(t, d, op, Apply(d, op, now), now).freezes == t.freezes
  {
  }

  lemma {:induction false} SpacedIs(ops: seq<Op>, gap: int)
    requires gap > 0
    ensures var h := Spaced(ops, gap);
            Asks(h, ops) && Ordered(h) && 0 <= Last(h)
    decreases |ops|
  {
    if ops != [] {
      var init := ops[..|ops| - 1];
      SpacedIs(init, gap);
      assert Spaced(ops, gap)[..|ops| - 1] == Spaced(init, gap);
    }
  }

  lemma StepFreezes(d: Deck, t: Truth, op: Op, now: int)
    ensures Observe(t, d, op, Apply(d, op, now), now).freezes <= t.freezes + 1
  {
  }

  lemma {:induction false} RunFreezes(h: seq<Moment>)
    ensures RunTruth(h).freezes <= |h|
    decreases |h|
  {
    if h != [] {
      var init, m := h[..|h| - 1], h[|h| - 1];
      RunFreezes(init);
      hide Apply;
      hide Observe;
      StepFreezes(RunDeck(init), RunTruth(init), m.op, m.at);
    }
  }

  /** In a spaced run the deck and the truth agree, or the deck is spoilt. */
  lemma {:induction false} SpacedRun(ops: seq<Op>, gap: int)
    requires gap >= 1000 * (|ops| + 2)
    ensures CleanOrSpoilt(Spaced(ops, gap), gap)
    decreases |ops|
  {
    if ops != [] {
      var n := |ops| - 1;
      var init := Spaced(ops[..n], gap);
      var m := Moment(ops[n], Last(init) + gap);
      assert Spaced(ops, gap) == init + [m];
      hide *;
      SpacedRun(ops[..n], gap);
      SpacedIs(ops[..n], gap);
      RunFreezes(init);
      SpacedStep(init, m, gap);
    }
  }

  lemma SpacedStep(init: seq<Moment>, m: Moment, gap: int)
    requires Ordered(init) && Last(init) + gap <= m.at && 1000 * (RunTruth(init).freezes + 1) <= gap
    requires CleanOrSpoilt(init, gap)
    ensures CleanOrSpoilt(init + [m], gap)
  {
    var h, d, t := init + [m], RunDeck(init), RunTruth(init);
    RunLoose(init);
    assert h[..|h| - 1] == init;
    hide Apply;
    hide Observe;
    hide Spoilt;
    hide Bases;
    hide FailedSwitch;
    if !Bases(d, m.op) {
      if CleanSinceBase(init) {
        if FailedSwitch(d, m.op) {
          RunAgrees(init);
          FailedSwitchSpoils(d, t, Last(init), m.op, m.at, gap);
        }
      } else {
        StaysSpoilt(d, t, Last(init), m.op, m.at, gap);
      }
    }
  }

  /** What an operation does to state and tracks does not depend on when it comes. */
  predicate SameShape(d: Deck, d': Deck) {
    d.state == d'.state && d.trackUri == d'.trackUri && d.playingUri == d'.playingUri
  }

  lemma StepShape(d: Deck, d': Deck, op: Op, now: int, now': int)
    requires SameShape(d, d')
    ensures SameShape(Apply(d, op, now), Apply(d', op, now'))
    ensures (Bases(d, op) <==> Bases(d', op)) && (FailedSwitch(d, op) <==> FailedSwitch(d', op))
  {
  }

  lemma {:induction false} CleanWhatever(h: seq<Moment>, h': seq<Moment>, ops: seq<Op>)
    requires Asks(h, ops) && Asks(h', ops)
    ensures SameShape(RunDeck(h), RunDeck(h')) && (CleanSinceBase(h) <==> CleanSinceBase(h'))
    decreases |ops|
  {
    if ops != [] {
      var n := |ops| - 1;
      CleanWhatever(h[..n], h'[..n], ops[..n]);
      hide Apply;
      hide SameShape;
      hide Bases;
      hide FailedSwitch;
      assert h[n].op == ops[n] == h'[n].op;
      StepShape(RunDeck(h[..n]), RunDeck(h'[..n]), ops[n], h[n].at, h'[n].at);
    }
  }

  /**
    For any sequence of operations: the bound holds whenever they come and whenever the position
    is asked for afterwards, if and only if no switch fails after the last base.
   */
  lemma BoundExact(ops: seq<Op>)
    ensures var some := Spaced(ops, 1000 * (|ops| + 2));
            CleanSinceBase(some) <==>
            forall h: seq<Moment>, now: int ::
              Asks(h, ops) && Ordered(h) && now > 0 && Last(h) <= now ==> Bounded(h, now)
  {
    var gap := 1000 * (|ops| + 2);
    var some := Spaced(ops, gap);
    SpacedIs(ops, gap);
    if CleanSinceBase(some) {
      forall h: seq<Moment>, now: int | Asks(h, ops) && Ordered(h) && now > 0 && Last(h) <= now
        ensures Bounded(h, now)
      {
        CleanWhatever(some, h, ops);
        PositionBound(h, now);
      }
    } else {
      SpacedRun(ops, gap);
      RunFreezes(some);
      SpoiltIsUnbounded(some, gap);
    }
  }

  lemma SpoiltIsUnbounded(h: seq<Moment>, gap: int)
    requires h != [] && Ordered(h) && Spoilt(RunDeck(h), RunTruth(h), Last(h), gap)
    requires 1000 * (RunTruth(h).freezes + 1) <= gap
    ensures Last(h) > 0 && !Bounded(h, Last(h))
  {
    RunLoose(h);
  }

  /** A failed switch, and a retry that starts: the run is clean again. */
  lemma RetryIsClean()
    ensures var h := [Moment(SetUri("a"), 1), Moment(Play(true), 1), Moment(SetUri("b"), 1),
                      Moment(Play(false), 2), Moment(Play(true), 3)];
            CleanSinceBase(h) && !CleanSinceBase(h[..4])
  {
    var h := [Moment(SetUri("a"), 1), Moment(Play(true), 1), Moment(SetUri("b"), 1),
              Moment(Play(false), 2), Moment(Play(true), 3)];
    assert h[..4][..3] == h[..3] && h[..3][..2] == h[..2] && h[..2][..1] == h[..1] && h[..1][..0] == [];
    assert RunDeck(h[..1]) == Apply(Idle, SetUri("a"), 1);
    assert RunDeck(h[..2]) == Apply(RunDeck(h[..1]), Play(true), 1);
    assert RunDeck(h[..3]) == Apply(RunDeck(h[..2]), SetUri("b"), 1);
    assert RunDeck(h[..4]) == Apply(RunDeck(h[..3]), Play(false), 2);
  }

  // ----- the deck as the callbacks see it -----

  class Player {
    var state: PlayState
    var accumulatedMs: int
    var startUs: int
    var savedSec: int
    var savedUri: Uri
    var trackUri: Uri
    var playingUri: Uri
    /** Everything that has been asked of the player, and when. */
    ghost var history: seq<Moment>

    function Abs(): Deck
      reads this
    {
      Deck(state, accumulatedMs, startUs, savedSec, savedUri, trackUri, playingUri)
    }

    ghost predicate Valid()
      reads this
    {
      Abs() == RunDeck(history)
    }

    constructor ()
      ensures Valid() && history == []
    {
      state, accumulatedMs, startUs, savedSec := Stopped, 0, 0, 0;
      savedUri, trackUri, playingUri := NoUri, NoUri, NoUri;
      history := [];
    }

    ghost method Record(op: Op, now: int)
      requires Abs() == Apply(RunDeck(history), op, now)
      modifies this`history
      ensures history == old(history) + [Moment(op, now)] && Valid()
    {
      assert (history + [Moment(op, now)])[..|history|] == history;
      history := history + [Moment(op, now)];
    }

    method CbSetUri(uri: string, ghost now: int)
      requires Valid()
      modifies this
      ensures Valid() && history == old(history) + [Moment(SetUri(uri), now)]
    {
      savedSec := 0;
      trackUri := Uri(uri);
      Record(SetUri(uri), now);
    }

    method DoPlayAt(seekSec: int, started: bool, now: int)
      modifies this`state, this`accumulatedMs, this`startUs, this`playingUri
      ensures Abs() == DoPlay(old(Abs()), seekSec, started, now)
    {
      if started {
        state := Playing;
        accumulatedMs := seekSec * 1000;
        startUs := now;
        playingUri := trackUri;
      } else {
        state := Stopped;
      }
    }

    method CbPlay(started: bool, now: int)
      requires Valid()
      modifies this
      ensures Valid() && history == old(history) + [Moment(Play(started), now)]
    {
      hide RunDeck;
      PlayNow(started, now);
      Record(Play(started), now);
    }

    method PlayNow(started: bool, now: int)
      modifies this
      ensures Abs() == Apply(old(Abs()), Play(started), now) && history == old(history)
    {
      if state == Playing {
        if playingUri != NoUri && trackUri != NoUri && playingUri == trackUri {
          return;
        }
        DoPlayAt(savedSec, started, now);
        savedSec := 0;
        return;
      }
      if state == Paused {
        var uriChanged := playingUri != NoUri && trackUri != NoUri && playingUri != trackUri;
        if uriChanged {
          DoPlayAt(savedSec, started, now);
          savedSec := 0;
        } else {
          state := Playing;
          startUs := now;
        }
        return;
      }
      if trackUri != NoUri {
        var sameTrack := savedUri == trackUri && savedSec > 0;
        DoPlayAt(if sameTrack then savedSec else 0, started, now);
      }
      savedSec := 0;
    }

    method FreezeNow(now: int)
      modifies this`accumulatedMs, this`startUs
      ensures Abs() == Freeze(old(Abs()), now)
    {
      if startUs > 0 {
        accumulatedMs := accumulatedMs + (now - startUs) / 1000;
        startUs := 0;
      }
    }

    method CbPause(now: int)
      requires Valid()
      modifies this
      ensures Valid() && history == old(history) + [Moment(Pause, now)]
    {
      hide RunDeck;
      if state == Playing {
        FreezeNow(now);
        savedSec := accumulatedMs / 1000;
        savedUri := trackUri;
        state := Paused;
      }
      Record(Pause, now);
    }

    method CbStop(now: int)
      requires Valid()
      modifies this
      ensures Valid() && history == old(history) + [Moment(Stop, now)]
    {
      hide RunDeck;
      FreezeNow(now);
      savedSec := accumulatedMs / 1000;
      savedUri := trackUri;
      state := Stopped;
      Record(Stop, now);
    }

    /** The getter shows true playing time, up to the truncation of its freezes and its own. */
    method CbGetPositionMs(now: int) returns (ms: int)
      requires Valid()
      ensures ms == Position(Abs(), now)
      ensures Ordered(history) && CleanSinceBase(history) && now > 0 && Last(history) <= now ==>
                Bounded(history, now)
    {
      if Ordered(history) && CleanSinceBase(history) && now > 0 && Last(history) <= now {
        PositionBound(history, now);
      }
      if state == Playing && startUs > 0 {
        var elapsedMs := (now - startUs) / 1000;
        return accumulatedMs + elapsedMs;
      }
      return accumulatedMs;
    }
  }
}
