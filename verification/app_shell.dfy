/** The TypeScript `App` page: the timer handlers inlined there, wired to the
    page's own sound engine, the `scheduledEndRef` / `beepedForRef` pair that
    guards the completion chime, the catch-up check on visibility or focus,
    the beep-mark timeout, and the delayed re-arm after an auto-switch.
    Every event carries the wall clock `now` and the audio clock `audio`, both
    in milliseconds. The page's host is assumed to provide Web Audio. */
module AppShell {
  import opened Wrappers
  import opened Modes
  import opened Decimal
  import opened DurationInput
  import opened Timer
  import opened SoundEngine

  /** How long the auto-switch waits before arming the next chime (2.4 s). */
  const RearmDelayMs: int := 2400

  /** A `scheduleCompleteIn` call queued by `setTimeout` after an auto-switch. */
  datatype DeferredArm = DeferredArm(delayMs: int, next: Mode)

  /** A completion chime the page plays at once (the catch-up or the
      auto-switch fallback), for the deadline it stands in for. */
  datatype Chime = ChimeFor(deadline: int, next: Mode)

  datatype Shell = Shell(
    timer: State,
    engine: Engine,
    focusText: DigitString,
    breakText: DigitString,
    scheduledEnd: Option<int>,
    beepedFor: Option<int>,
    markPending: bool,
    deferred: seq<DeferredArm>)

  datatype Kind =
    | Tick
    | Resume
    | MarkFired
    | DeferredFires
    | PressPlayPause
    | PressSkip
    | PressReset
    | PressAddTime(sec: int)
    | TypeFocus(raw: string)
    | TypeBreak(raw: string)
    | BlurFocus
    | BlurBreak

  datatype Event = Event(now: int, audio: int, kind: Kind)

  /** The page's first state, from the stored field texts. */
  function Start(focusText: DigitString, breakText: DigitString): (s: Shell)
    ensures Inv(s) && Quiet(s) && s.scheduledEnd.None? && s.beepedFor.None?
  {
    var d := DurationsOf(focusText, breakText);
    Shell(Settle(Init(d), d), NewEngine(AppVolume), focusText, breakText, None, None, false, [])
  }

  /** What every step keeps: a valid timer and engine, the chime guard's
      deadline equal to the timer's, and a delivery mark only ever for that
      deadline. */
  predicate Inv(s: Shell) {
    && Valid(s.timer)
    && Wf(s.engine)
    && s.scheduledEnd == s.timer.endAt
    && (s.beepedFor.Some? ==> s.beepedFor == s.scheduledEnd)
  }

  /** A stopped timer has no cue on the audio timeline and none queued. */
  predicate Quiet(s: Shell) {
    !s.timer.running ==> s.engine.scheduled == [] && s.deferred == []
  }

  /** `sound.unlock()` / `ensure()` on a host that provides Web Audio. */
  function EnsureHost(e: Engine): (r: Engine)
    ensures r.hasCtx && r.scheduled == e.scheduled && r.nextMode == e.nextMode
    ensures Wf(e) ==> Wf(r) && r.hasMaster
  {
    match Ensure(e, true)
    case Ok(e1) => e1
    case Err(_) => e.(hasCtx := true, hasMaster := true, gain := if e.muted then 0 else e.volume)
  }

  /** The auto-switch effect with its chime guard: on completion, play the
      fallback chime unless the deadline is already marked delivered, queue
      the next arm, and move the guard to the new deadline. */
  function OnTick(s: Shell, now: int): (out: (Shell, seq<Chime>))
    ensures !Completes(s.timer, now) ==> out == (s, [])
    ensures Completes(s.timer, now) ==>
      && out.0.timer.running
      && |out.0.deferred| == |s.deferred| + 1 && out.0.deferred[..|s.deferred|] == s.deferred
    ensures Inv(s) ==> Inv(out.0)
  {
    var d := DurationsOf(s.focusText, s.breakText);
    if !Completes(s.timer, now) then (s, [])
    else
      var t1 := AutoSwitch(s.timer, now, d);
      var fallback := s.scheduledEnd.Some? && s.beepedFor != s.scheduledEnd;
      var chimes := if fallback then [ChimeFor(s.scheduledEnd.value, s.engine.nextMode)] else [];
      var e1 := if fallback then EnsureHost(s.engine) else s.engine;
      (s.(timer := t1, engine := e1,
          deferred := s.deferred + [DeferredArm(Max(0, t1.totalMs - RearmDelayMs), Next(t1.mode))],
          scheduledEnd := t1.endAt, beepedFor := None, markPending := true),
       chimes)
  }

  /** `checkMissed`: when running past a recorded deadline that nothing has
      marked delivered, play the chime now and mark the deadline. */
  function OnResume(s: Shell, now: int): (out: (Shell, seq<Chime>))
    ensures out.0.timer == s.timer && out.0.deferred == s.deferred
    ensures out.0.engine.scheduled == s.engine.scheduled
    ensures Inv(s) ==> Inv(out.0)
  {
    var s1 := s.(engine := EnsureHost(s.engine));
    if !s.timer.running || s.scheduledEnd.None? then (s1, [])
    else if s.beepedFor.None? && now >= s.scheduledEnd.value then
      (s1.(beepedFor := s.scheduledEnd), [ChimeFor(s.scheduledEnd.value, s1.engine.nextMode)])
    else (s1, [])
  }

  /** The beep-mark timeout: the scheduled chime has played, so mark the
      current deadline delivered. A cleared timeout never fires. */
  function OnMarkFired(s: Shell): (r: Shell)
    ensures r.timer == s.timer && r.engine == s.engine && r.deferred == s.deferred
    ensures !s.markPending ==> r == s
    ensures !r.markPending && r.scheduledEnd == s.scheduledEnd
    ensures s.markPending && s.scheduledEnd.Some? ==> r.beepedFor == s.scheduledEnd
    ensures s.markPending && s.scheduledEnd.None? ==> r.beepedFor == s.beepedFor
    ensures Inv(s) ==> Inv(r)
  {
    if !s.markPending then s
    else if s.scheduledEnd.Some? then s.(markPending := false, beepedFor := s.scheduledEnd)
    else s.(markPending := false)
  }

  /** The oldest queued re-arm fires: `scheduleCompleteIn(max(0, nt - 2.4), nextNext)`. */
  function OnDeferredFires(s: Shell, audio: int): (r: Shell)
    ensures r.timer == s.timer && r.scheduledEnd == s.scheduledEnd && r.beepedFor == s.beepedFor
    ensures s.deferred == [] ==> r == s
    ensures s.deferred != [] ==> r.deferred == s.deferred[1..]
    ensures Inv(s) ==> Inv(r)
  {
    if |s.deferred| == 0 then s
    else
      var a := s.deferred[0];
      s.(engine := Arm(EnsureHost(s.engine), audio, a.delayMs, a.next), deferred := s.deferred[1..])
  }

  /** Cancel every cue and clear the guard: what pause, skip and reset share. */
  function Silence(s: Shell): (r: Shell)
    ensures r.engine.scheduled == [] && r.scheduledEnd.None? && r.beepedFor.None? && !r.markPending
  {
    s.(engine := CancelScheduled(s.engine), scheduledEnd := None, beepedFor := None, markPending := false)
  }

  /** `playPause`: play arms the chime for the new deadline; pause cancels. */
  function OnPlayPause(s: Shell, now: int, audio: int): (r: Shell)
    ensures r.timer == PlayPause(s.timer, now)
    ensures r.deferred == s.deferred
    ensures !r.timer.running ==> r.engine.scheduled == []
    ensures Inv(s) ==> Inv(r)
  {
    var e0 := EnsureHost(s.engine);
    if !s.timer.running then
      var rem := ResumeMs(s.timer, now);
      var t1 := Play(s.timer, now);
      s.(timer := t1,
         engine := Arm(CancelScheduled(e0), audio, rem, Next(s.timer.mode)),
         scheduledEnd := t1.endAt, beepedFor := None, markPending := true)
    else
      Silence(s.(timer := Pause(s.timer, now), engine := e0))
  }

  /** `addTime(sec)`: while running, move the deadline and re-arm for the new
      remainder; while stopped, only the times grow. */
  function OnAddTime(s: Shell, sec: int, now: int, audio: int): (r: Shell)
    ensures r.timer == AddTime(s.timer, sec) && r.deferred == s.deferred
    ensures !s.timer.running ==> r.engine.scheduled == s.engine.scheduled
    ensures Inv(s) ==> Inv(r)
  {
    if sec <= 0 then s
    else
      var t1 := AddTime(s.timer, sec);
      var e0 := EnsureHost(s.engine);
      assert Wf(s.engine) ==> Wf(CancelScheduled(e0));
      if s.timer.running && t1.endAt.Some? then
        s.(timer := t1,
           engine := Arm(CancelScheduled(e0), audio, Max(0, t1.endAt.value - now), Next(s.timer.mode)),
           scheduledEnd := t1.endAt, beepedFor := None, markPending := true)
      else s.(timer := t1, engine := e0)
  }

  /** `skip`, with the click's `ensure`. */
  function OnSkip(s: Shell): (r: Shell)
    ensures r.timer == Skip(s.timer, DurationsOf(s.focusText, s.breakText)) && r.deferred == s.deferred
    ensures Inv(s) ==> Inv(r)
  {
    Silence(s.(timer := Skip(s.timer, DurationsOf(s.focusText, s.breakText)), engine := EnsureHost(s.engine)))
  }

  /** `resetTimer`. */
  function OnReset(s: Shell): (r: Shell)
    ensures r.timer == Reset(s.timer, DurationsOf(s.focusText, s.breakText)) && r.deferred == s.deferred
    ensures Inv(s) ==> Inv(r)
  {
    Silence(s.(timer := Reset(s.timer, DurationsOf(s.focusText, s.breakText)), engine := EnsureHost(s.engine)))
  }

  /** Typing into or leaving a duration field: only that field's text
      changes. Typing keeps the typed digits; leaving the field puts its
      minutes in [1, 600], and a blank field gets the default. */
  function OnEdit(s: Shell, k: Kind): (r: Shell)
    ensures r.timer == s.timer && r.engine == s.engine && r.deferred == s.deferred
    ensures r.scheduledEnd == s.scheduledEnd && r.beepedFor == s.beepedFor && r.markPending == s.markPending
    ensures k.TypeFocus? || k.BlurFocus? ==> r.breakText == s.breakText
    ensures k.TypeBreak? || k.BlurBreak? ==> r.focusText == s.focusText
    ensures k.TypeFocus? ==> r.focusText == OnlyDigits(k.raw)
    ensures k.TypeBreak? ==> r.breakText == OnlyDigits(k.raw)
    ensures k.BlurFocus? ==> MinMinutes <= Value(r.focusText) <= MaxMinutes
    ensures k.BlurBreak? ==> MinMinutes <= Value(r.breakText) <= MaxMinutes
    ensures k.BlurFocus? && s.focusText == "" ==> Value(r.focusText) == DefaultFocusMinutes
    ensures k.BlurBreak? && s.breakText == "" ==> Value(r.breakText) == DefaultBreakMinutes
    ensures !(k.TypeFocus? || k.TypeBreak? || k.BlurFocus? || k.BlurBreak?) ==> r == s
  {
    match k
    case TypeFocus(raw) => s.(focusText := OnlyDigits(raw))
    case TypeBreak(raw) => s.(breakText := OnlyDigits(raw))
    case BlurFocus => s.(focusText := NormalizeOnBlur(s.focusText, DefaultFocusMinutes))
    case BlurBreak => s.(breakText := NormalizeOnBlur(s.breakText, DefaultBreakMinutes))
    case _ => s
  }


  /** One event as the page's handlers and effects take it, before the idle
      effect. Only the auto-switch and the catch-up check play a chime, and
      at most one. */
  function Handle(s: Shell, ev: Event): (out: (Shell, seq<Chime>))
    ensures |out.1| <= 1
    ensures out.1 != [] ==> ev.kind.Tick? || ev.kind.Resume?
  {
    match ev.kind
    case Tick => OnTick(s, ev.now)
    case Resume => OnResume(s, ev.now)
    case MarkFired => (OnMarkFired(s), [])
    case DeferredFires => (OnDeferredFires(s, ev.audio), [])
    case PressPlayPause => (OnPlayPause(s, ev.now, ev.audio), [])
    case PressSkip => (OnSkip(s), [])
    case PressReset => (OnReset(s), [])
    case PressAddTime(sec) => (OnAddTime(s, sec, ev.now, ev.audio), [])
    case _ => (OnEdit(s, ev.kind), [])
  }

  /** Every handler keeps the invariant. */
  lemma HandleInv(s: Shell, ev: Event)
    ensures Inv(s) ==> Inv(Handle(s, ev).0)
  {
    if !Inv(s) {
      return;
    }
    match ev.kind
    case Tick => assert Handle(s, ev).0 == OnTick(s, ev.now).0;
    case Resume => assert Handle(s, ev).0 == OnResume(s, ev.now).0;
    case MarkFired => assert Handle(s, ev).0 == OnMarkFired(s);
    case DeferredFires => assert Handle(s, ev).0 == OnDeferredFires(s, ev.audio);
    case PressPlayPause => assert Handle(s, ev).0 == OnPlayPause(s, ev.now, ev.audio);
    case PressSkip => assert Handle(s, ev).0 == OnSkip(s);
    case PressReset => assert Handle(s, ev).0 == OnReset(s);
    case PressAddTime(sec) => assert Handle(s, ev).0 == OnAddTime(s, sec, ev.now, ev.audio);
    case _ => assert Handle(s, ev).0 == OnEdit(s, ev.kind);
  }

  /** The idle effect that follows every render. */
  function Settled(s: Shell): (r: Shell)
    ensures r.engine == s.engine && r.deferred == s.deferred
    ensures r.scheduledEnd == s.scheduledEnd && r.beepedFor == s.beepedFor && r.markPending == s.markPending
    ensures r.timer.endAt == s.timer.endAt && r.timer.running == s.timer.running
    ensures Inv(s) ==> Inv(r)
    ensures s.timer.running ==> r == s
  {
    s.(timer := Settle(s.timer, DurationsOf(s.focusText, s.breakText)))
  }

  /** One event followed by the idle effect, as the page is written. Only a
      completion queues a re-arm and only a firing re-arm leaves the queue;
      no control clears it. */
  function StepAsWritten(s: Shell, ev: Event): (out: (Shell, seq<Chime>))
    ensures Inv(s) ==> Inv(out.0)
    ensures out.1 == Handle(s, ev).1
    ensures ev.kind.Tick? && Completes(s.timer, ev.now) ==>
      |out.0.deferred| == |s.deferred| + 1 && out.0.deferred[..|s.deferred|] == s.deferred
    ensures ev.kind.DeferredFires? && s.deferred != [] ==> out.0.deferred == s.deferred[1..]
    ensures !ev.kind.DeferredFires? && !(ev.kind.Tick? && Completes(s.timer, ev.now)) ==>
      out.0.deferred == s.deferred
  {
    var h := Handle(s, ev);
    HandleInv(s, ev);
    match ev.kind
    case Tick => assert h == OnTick(s, ev.now); (Settled(h.0), h.1)
    case DeferredFires => assert h.0 == OnDeferredFires(s, ev.audio); (Settled(h.0), h.1)
    case PressPlayPause => assert h.0 == OnPlayPause(s, ev.now, ev.audio); (Settled(h.0), h.1)
    case _ => (Settled(h.0), h.1)
  }

  /** Pause, skip and reset: the controls that can stop the timer. */
  predicate Stops(k: Kind) {
    k.PressPlayPause? || k.PressSkip? || k.PressReset?
  }

  /** The controls that cancel the cues and arm, or leave unarmed, the
      timeline afresh: the stopping controls and a positive add-time. */
  predicate Controls(k: Kind) {
    Stops(k) || (k.PressAddTime? && k.sec > 0)
  }

  /** One event with the stale re-arm corrected: every control that cancels
      the scheduled cues also drops the queued re-arms; every other event is
      taken as written. */
  function Step(s: Shell, ev: Event): (out: (Shell, seq<Chime>))
    ensures Inv(s) ==> Inv(out.0)
    ensures Inv(s) && Quiet(s) ==> Quiet(out.0)
    ensures Controls(ev.kind) ==> out.0.deferred == []
    ensures !Controls(ev.kind) ==> out == StepAsWritten(s, ev)
  {
    var w := StepAsWritten(s, ev);
    StepQuiet(s, ev);
    (if Controls(ev.kind) then w.0.(deferred := []) else w.0, w.1)
  }

  /** Every event other than a control keeps a stopped timer silent on its
      own; a queued re-arm needs the queue to be empty when stopped. */
  lemma StepQuiet(s: Shell, ev: Event)
    ensures Inv(s) && Quiet(s) ==> var s1 := StepAsWritten(s, ev).0;
      Quiet(if Controls(ev.kind) then s1.(deferred := []) else s1)
  {
    match ev.kind
    case Tick => assert Handle(s, ev) == OnTick(s, ev.now);
    case Resume => assert Handle(s, ev) == OnResume(s, ev.now);
    case MarkFired => assert Handle(s, ev) == (OnMarkFired(s), []);
    case DeferredFires => assert Handle(s, ev) == (OnDeferredFires(s, ev.audio), []);
    case PressPlayPause => assert Handle(s, ev) == (OnPlayPause(s, ev.now, ev.audio), []);
    case PressSkip => assert Handle(s, ev) == (OnSkip(s), []);
    case PressReset => assert Handle(s, ev) == (OnReset(s), []);
    case PressAddTime(sec) => assert Handle(s, ev) == (OnAddTime(s, sec, ev.now, ev.audio), []);
    case _ => assert Handle(s, ev) == (OnEdit(s, ev.kind), []);
  }

  /** A queued re-arm that fires schedules a full set of cues, whatever the
      timer is doing: the cues of the arm at the head of the queue. */
  lemma QueuedRearmArms(s: Shell, now: int, audio: int)
    requires Inv(s) && |s.deferred| > 0
    ensures var s1 := StepAsWritten(s, Event(now, audio, DeferredFires)).0;
      && s1.timer.running == s.timer.running && s1.scheduledEnd == s.scheduledEnd
      && s1.engine.scheduled == CompletionCues(audio, s.deferred[0].delayMs, s.deferred[0].next)
      && |s1.engine.scheduled| >= 7
  {
    var a := s.deferred[0];
    var e1 := EnsureHost(s.engine);
    assert e1.hasCtx && e1.hasMaster;
    assert Handle(s, Event(now, audio, DeferredFires)).0 == OnDeferredFires(s, audio);
    assert OnDeferredFires(s, audio).engine == Arm(e1, audio, a.delayMs, a.next);
  }

  /** FINDING, as written: pause right after an auto-switch, and the re-arm
      queued by that auto-switch still fires and schedules a full countdown
      and chime on the audio timeline of a stopped timer. */
  lemma StaleArmAsWritten(s: Shell, now: int, pauseAt: int, audio: int)
    requires Inv(s) && Completes(s.timer, now)
    ensures var s1 := StepAsWritten(s, Event(now, audio, Tick)).0;
      var s2 := StepAsWritten(s1, Event(pauseAt, audio, PressPlayPause)).0;
      var s3 := StepAsWritten(s2, Event(pauseAt, audio, DeferredFires)).0;
      !s3.timer.running && |s3.engine.scheduled| >= 7
  {
    TickQueuesRearm(s, now, audio);
    var s1 := StepAsWritten(s, Event(now, audio, Tick)).0;
    PauseKeepsQueue(s1, pauseAt, audio);
    var s2 := StepAsWritten(s1, Event(pauseAt, audio, PressPlayPause)).0;
    QueuedRearmArms(s2, pauseAt, audio);
  }

  /** Corrected: the same three events leave the stopped timer with nothing
      on the audio timeline. */
  lemma StaleArmCorrected(s: Shell, now: int, pauseAt: int, audio: int)
    requires Inv(s) && Quiet(s) && Completes(s.timer, now)
    ensures var s1 := Step(s, Event(now, audio, Tick)).0;
      var s2 := Step(s1, Event(pauseAt, audio, PressPlayPause)).0;
      var s3 := Step(s2, Event(pauseAt, audio, DeferredFires)).0;
      !s3.timer.running && s3.engine.scheduled == []
  {
    TickQueuesRearm(s, now, audio);
    var s1 := Step(s, Event(now, audio, Tick)).0;
    PauseKeepsQueue(s1, pauseAt, audio);
  }

  /** An auto-switch keeps the timer running and queues one more re-arm:
      `scheduleCompleteIn` toward the mode after next, 2.4 s short of the
      new session's full length. */
  lemma TickQueuesRearm(s: Shell, now: int, audio: int)
    requires Inv(s) && Completes(s.timer, now)
    ensures var s1 := StepAsWritten(s, Event(now, audio, Tick)).0;
      && Inv(s1) && s1.timer.running
      && s1.deferred == s.deferred + [DeferredArm(Max(0, s1.timer.totalMs - RearmDelayMs), Next(s1.timer.mode))]
  {
    assert Handle(s, Event(now, audio, Tick)) == OnTick(s, now);
  }

  /** As written, pause leaves the re-arm queue as it was. */
  lemma PauseKeepsQueue(s: Shell, now: int, audio: int)
    requires Inv(s) && s.timer.running
    ensures var s1 := StepAsWritten(s, Event(now, audio, PressPlayPause)).0;
      Inv(s1) && !s1.timer.running && s1.deferred == s.deferred
  {
    assert Handle(s, Event(now, audio, PressPlayPause)).0 == OnPlayPause(s, now, audio);
  }

  /** With nothing queued, a running page is left exactly as it was. */
  lemma EmptyQueueFiresNothing(s: Shell, now: int, audio: int)
    requires s.deferred == [] && s.timer.running
    ensures StepAsWritten(s, Event(now, audio, DeferredFires)) == (s, [])
    ensures Step(s, Event(now, audio, DeferredFires)) == (s, [])
  {
    assert Handle(s, Event(now, audio, DeferredFires)) == (OnDeferredFires(s, audio), []);
  }

  /** FINDING, as written: add time right after an auto-switch, and the
      re-arm queued by that auto-switch replaces the cues armed for the
      extended deadline by cues for the remainder known before the add-time:
      the added seconds never reach the audio timeline. */
  lemma AddTimeStaleArmAsWritten(s: Shell, now: int, addAt: int, sec: int, audio: int, later: int)
    requires Inv(s) && Completes(s.timer, now) && s.deferred == [] && sec > 0
    ensures var s1 := StepAsWritten(s, Event(now, audio, Tick)).0;
      var s2 := StepAsWritten(s1, Event(addAt, audio, PressAddTime(sec))).0;
      var s3 := StepAsWritten(s2, Event(addAt, later, DeferredFires)).0;
      && s3.timer.running && s3.scheduledEnd == Some(s1.timer.endAt.value + sec * 1000)
      && s3.engine.scheduled == CompletionCues(later, Max(0, s1.timer.totalMs - RearmDelayMs), Next(s1.timer.mode))
  {
    TickQueuesRearm(s, now, audio);
    var s1 := StepAsWritten(s, Event(now, audio, Tick)).0;
    AddTimeRearms(s1, sec, addAt, audio);
    var s2 := StepAsWritten(s1, Event(addAt, audio, PressAddTime(sec))).0;
    QueuedRearmArms(s2, addAt, later);
  }

  /** Corrected: a later firing of the queue leaves the add-time's cues, for
      the extended deadline, in place. */
  lemma AddTimeStaleArmCorrected(s: Shell, now: int, addAt: int, sec: int, audio: int, later: int)
    requires Inv(s) && Completes(s.timer, now) && sec > 0
    ensures var s1 := Step(s, Event(now, audio, Tick)).0;
      && s1.timer.running
      && AddTimeThenFires(s1, sec, addAt, audio, later)
  {
    var tick := Event(now, audio, Tick);
    TickQueuesRearm(s, now, audio);
    assert Step(s, tick) == StepAsWritten(s, tick);
    AddTimeThenFire(Step(s, tick).0, sec, addAt, audio, later);
  }

  /** A positive add-time at `now` arms the extended deadline, and a later
      firing of the queue leaves the page, cues included, as it was. */
  predicate AddTimeThenFires(s: Shell, sec: int, now: int, audio: int, later: int)
    requires s.timer.endAt.Some?
  {
    var s1 := Step(s, Event(now, audio, PressAddTime(sec))).0;
    && ArmedFor(s1, s.timer.endAt.value + sec * 1000, now, audio, Next(s.timer.mode))
    && Step(s1, Event(now, later, DeferredFires)) == (s1, [])
  }

  /** Under the corrected step, a positive add-time on a running page arms
      the extended deadline and leaves nothing queued to displace it. */
  lemma AddTimeThenFire(s: Shell, sec: int, now: int, audio: int, later: int)
    requires Inv(s) && s.timer.running && sec > 0
    ensures AddTimeThenFires(s, sec, now, audio, later)
  {
    AddTimeRearms(s, sec, now, audio);
    EmptyQueueFiresNothing(Step(s, Event(now, audio, PressAddTime(sec))).0, now, later);
  }

  /** The catch-up check plays exactly when the timer runs past a recorded
      deadline that is not yet marked delivered. */
  lemma CatchUpWhenDue(s: Shell, now: int, audio: int)
    requires Inv(s)
    ensures var (s1, out) := Step(s, Event(now, audio, Resume));
      (out != [] <==> s.timer.running && s.timer.endAt.Some? && s.beepedFor.None? && now >= s.timer.endAt.value)
      && (out != [] ==> out == [ChimeFor(s.timer.endAt.value, s.engine.nextMode)] && s1.beepedFor == s.timer.endAt)
  {
  }

  /** Delivery after a missed deadline: the first check plays the chime and
      marks the deadline; a second check, at any later instant, plays nothing. */
  lemma CatchUpOnce(s: Shell, now: int, later: int, audio: int)
    requires Inv(s) && s.timer.running && s.timer.endAt.Some? && s.beepedFor.None?
    requires now >= s.timer.endAt.value
    ensures var (s1, out1) := Step(s, Event(now, audio, Resume));
      out1 == [ChimeFor(s.timer.endAt.value, s.engine.nextMode)]
      && Step(s1, Event(later, audio, Resume)).1 == []
  {
    CatchUpWhenDue(s, now, audio);
    var s1 := Step(s, Event(now, audio, Resume)).0;
    CatchUpWhenDue(s1, later, audio);
  }

  /** Once the beep-mark timeout has fired, neither the catch-up check nor
      the auto-switch fallback chimes the deadline it marked, at any instant. */
  lemma MarkedIsNotRechimed(s: Shell, now: int)
    requires s.markPending
    ensures OnResume(OnMarkFired(s), now).1 == []
    ensures OnTick(OnMarkFired(s), now).1 == []
  {
  }

  /** Typing a new focus duration into a stopped focus session reaches the
      timer: the idle effect reloads the remainder with the typed minutes. */
  lemma TypedFocusReachesTimer(s: Shell, now: int, audio: int, raw: string)
    requires Inv(s) && !s.timer.running && s.timer.mode == Focus
    requires OnlyDigits(raw) != "" && Value(OnlyDigits(raw)) != 0
    requires s.timer.lastKey != Some(KeyOf(Focus, DurationsOf(OnlyDigits(raw), s.breakText)))
    ensures Remaining(StepAsWritten(s, Event(now, audio, TypeFocus(raw))).0.timer, now)
      == Value(OnlyDigits(raw)) * 60000
    ensures Step(s, Event(now, audio, TypeFocus(raw))) == StepAsWritten(s, Event(now, audio, TypeFocus(raw)))
  {
    var ev := Event(now, audio, TypeFocus(raw));
    var e := OnEdit(s, TypeFocus(raw));
    assert Handle(s, ev).0 == e;
    var d := DurationsOf(e.focusText, e.breakText);
    assert d.focusMin == Value(OnlyDigits(raw));
    assert StepAsWritten(s, ev).0.timer == Settle(s.timer, d);
  }

  /** The auto-switch plays the fallback chime exactly when it completes a
      deadline that is not marked delivered, and that chime is for the old
      deadline. */
  lemma FallbackWhenUnmarked(s: Shell, now: int, audio: int)
    requires Inv(s)
    ensures var (s1, out) := Step(s, Event(now, audio, Tick));
      (out != [] <==> Completes(s.timer, now) && s.beepedFor.None?)
      && (out != [] ==> out == [ChimeFor(s.timer.endAt.value, s.engine.nextMode)])
      && (Completes(s.timer, now) ==> s1.timer.running && s1.beepedFor.None? && s1.markPending)
  {
  }

  /** With the correction, pause, skip and reset leave no cue scheduled, no
      re-arm queued and the chime guard cleared. */
  lemma StopsSilence(s: Shell, ev: Event)
    requires Inv(s) && Stops(ev.kind)
    ensures var s1 := Step(s, ev).0;
      !s1.timer.running ==>
        s1.engine.scheduled == [] && s1.deferred == []
        && s1.scheduledEnd.None? && s1.beepedFor.None? && !s1.markPending
  {
  }

  /** Play arms the countdown and chime for the remainder it resumes from,
      toward the mode that follows. */
  lemma PlayArms(s: Shell, now: int, audio: int)
    requires Inv(s) && !s.timer.running
    ensures var s1 := Step(s, Event(now, audio, PressPlayPause)).0;
      var rem := ResumeMs(s.timer, now);
      && s1.timer.running && s1.scheduledEnd == Some(now + rem)
      && s1.engine.scheduled == CompletionCues(audio, rem, Next(s.timer.mode))
      && s1.engine.nextMode == Next(s.timer.mode)
      && s1.beepedFor.None? && s1.markPending
  {
    var ev := Event(now, audio, PressPlayPause);
    var r := OnPlayPause(s, now, audio);
    OnPlayRunning(s, now, audio);
    assert Handle(s, ev) == (r, []);
    assert StepAsWritten(s, ev).0 == Settled(r);
    assert Step(s, ev).0 == Settled(r).(deferred := []);
  }

  lemma OnPlayRunning(s: Shell, now: int, audio: int)
    requires Inv(s) && !s.timer.running
    ensures var r := OnPlayPause(s, now, audio);
      var rem := ResumeMs(s.timer, now);
      && r.timer.running && r.scheduledEnd == Some(now + rem)
      && r.engine.scheduled == CompletionCues(audio, rem, Next(s.timer.mode))
      && r.engine.nextMode == Next(s.timer.mode)
      && r.beepedFor.None? && r.markPending
  {
    var e1 := CancelScheduled(EnsureHost(s.engine));
    assert e1.hasCtx && e1.hasMaster;
    var t1 := Play(s.timer, now);
    assert t1.endAt == Some(now + ResumeMs(s.timer, now));
    assert OnPlayPause(s, now, audio) == s.(timer := t1, engine := Arm(e1, audio, ResumeMs(s.timer, now), Next(s.timer.mode)),
                   scheduledEnd := t1.endAt, beepedFor := None, markPending := true);
  }

  /** The page runs toward `end`, with the guard on that deadline, nothing
      marked delivered, and the cues armed for the remainder `end - now`
      toward `next`. */
  predicate ArmedFor(s: Shell, end: int, now: int, audio: int, next: Mode) {
    && s.timer.running && s.scheduledEnd == Some(end) && s.beepedFor.None?
    && s.engine.scheduled == CompletionCues(audio, Max(0, end - now), next)
  }

  /** Adding time while running moves the guard's deadline with the timer's
      and re-arms the cues for the new remainder, as written and corrected. */
  lemma AddTimeRearms(s: Shell, sec: int, now: int, audio: int)
    requires Inv(s) && s.timer.running && sec > 0
    ensures var ev := Event(now, audio, PressAddTime(sec));
      var newEnd := s.timer.endAt.value + sec * 1000;
      && ArmedFor(StepAsWritten(s, ev).0, newEnd, now, audio, Next(s.timer.mode))
      && ArmedFor(Step(s, ev).0, newEnd, now, audio, Next(s.timer.mode))
  {
    OnAddTimeRunning(s, sec, now, audio);
    StepAddTime(s, sec, now, audio);
  }

  /** A positive add-time is the handler and the idle effect; the corrected
      step also empties the queue. */
  lemma StepAddTime(s: Shell, sec: int, now: int, audio: int)
    requires sec > 0
    ensures var ev := Event(now, audio, PressAddTime(sec));
      var w := Settled(OnAddTime(s, sec, now, audio));
      StepAsWritten(s, ev).0 == w && Step(s, ev).0 == w.(deferred := [])
  {
    var ev := Event(now, audio, PressAddTime(sec));
    assert Handle(s, ev) == (OnAddTime(s, sec, now, audio), []);
  }

  lemma OnAddTimeRunning(s: Shell, sec: int, now: int, audio: int)
    requires Inv(s) && s.timer.running && sec > 0
    ensures ArmedFor(OnAddTime(s, sec, now, audio), s.timer.endAt.value + sec * 1000, now, audio, Next(s.timer.mode))
  {
    assert Wf(CancelScheduled(EnsureHost(s.engine)));
    assert AddTime(s.timer, sec).endAt == Some(s.timer.endAt.value + sec * 1000);
  }

  /** Every deadline already chimed lies at or before `clock`; the current
      deadline lies after all of them, unless it is one of them and is
      marked delivered. */
  predicate Covered(s: Shell, chimed: set<int>, clock: int) {
    forall c :: c in chimed ==>
      && c <= clock
      && (s.scheduledEnd.Some? ==>
            c < s.scheduledEnd.value || (c == s.scheduledEnd.value && s.beepedFor == s.scheduledEnd))
  }

  function Deadlines(cs: seq<Chime>): set<int> {
    set c | c in cs :: c.deadline
  }

  lemma HandleChimesFresh(s: Shell, chimed: set<int>, clock: int, ev: Event)
    requires Inv(s) && Covered(s, chimed, clock) && clock <= ev.now
    ensures var (s1, out) := Handle(s, ev);
      && |out| <= 1 && (forall c :: c in out ==> c.deadline !in chimed && c.deadline <= ev.now)
      && Covered(s1, chimed + Deadlines(out), ev.now)
  {
    if ev.kind.Tick? {
      TickFresh(s, chimed, clock, ev.now);
      assert Handle(s, ev) == OnTick(s, ev.now);
    } else if ev.kind.Resume? {
      ResumeFresh(s, chimed, clock, ev.now);
      assert Handle(s, ev) == OnResume(s, ev.now);
    } else {
      SilentFresh(s, chimed, clock, ev);
      assert Deadlines([]) == {};
      assert chimed + {} == chimed;
    }
  }

  /** Every other event plays nothing and moves the deadline, if at all,
      past every chimed one. */
  lemma SilentFresh(s: Shell, chimed: set<int>, clock: int, ev: Event)
    requires Inv(s) && Covered(s, chimed, clock) && clock <= ev.now
    requires !ev.kind.Tick? && !ev.kind.Resume?
    ensures Handle(s, ev).1 == [] && Covered(Handle(s, ev).0, chimed, ev.now)
  {
    match ev.kind
    case MarkFired => assert Handle(s, ev) == (OnMarkFired(s), []);
    case DeferredFires => assert Handle(s, ev) == (OnDeferredFires(s, ev.audio), []);
    case PressPlayPause =>
      PlayPauseFresh(s, chimed, clock, ev.now, ev.audio);
      assert Handle(s, ev) == (OnPlayPause(s, ev.now, ev.audio), []);
    case PressSkip => assert Handle(s, ev) == (OnSkip(s), []);
    case PressReset => assert Handle(s, ev) == (OnReset(s), []);
    case PressAddTime(sec) => assert Handle(s, ev) == (OnAddTime(s, sec, ev.now, ev.audio), []);
    case TypeFocus(_) | TypeBreak(_) | BlurFocus | BlurBreak => assert Handle(s, ev) == (OnEdit(s, ev.kind), []);
  }

  /** The fallback chime is for a deadline not chimed before, and the new
      deadline lies after every chimed one. */
  lemma TickFresh(s: Shell, chimed: set<int>, clock: int, now: int)
    requires Inv(s) && Covered(s, chimed, clock) && clock <= now
    ensures var (s1, out) := OnTick(s, now);
      && |out| <= 1 && (forall c :: c in out ==> c.deadline !in chimed && c.deadline <= now)
      && Covered(s1, chimed + Deadlines(out), now)
  {
  }

  /** The catch-up chime is for a deadline not chimed before, and marks it. */
  lemma ResumeFresh(s: Shell, chimed: set<int>, clock: int, now: int)
    requires Inv(s) && Covered(s, chimed, clock) && clock <= now
    ensures var (s1, out) := OnResume(s, now);
      && |out| <= 1 && (forall c :: c in out ==> c.deadline !in chimed && c.deadline <= now)
      && Covered(s1, chimed + Deadlines(out), now)
  {
  }

  /** Play moves the deadline into the future; pause clears it. */
  lemma PlayPauseFresh(s: Shell, chimed: set<int>, clock: int, now: int, audio: int)
    requires Inv(s) && Covered(s, chimed, clock) && clock <= now
    ensures Covered(OnPlayPause(s, now, audio), chimed, now)
  {
  }

  /** One step, as written or corrected, chimes at most once, for a fresh
      deadline, and keeps the chimed deadlines covered. */
  lemma StepChimesFresh(s: Shell, chimed: set<int>, clock: int, ev: Event)
    requires Inv(s) && Covered(s, chimed, clock) && clock <= ev.now
    ensures forall out | out == StepAsWritten(s, ev) || out == Step(s, ev) ::
      && |out.1| <= 1 && (forall c :: c in out.1 ==> c.deadline !in chimed)
      && Covered(out.0, chimed + Deadlines(out.1), ev.now)
  {
    HandleChimesFresh(s, chimed, clock, ev);
  }

  /** A run of events through the corrected step: the final page state and
      every chime it played, in order. */
  function Run(s: Shell, evs: seq<Event>): (out: (Shell, seq<Chime>))
    ensures Inv(s) ==> Inv(out.0)
    ensures |out.1| <= |evs|
    decreases |evs|
  {
    if |evs| == 0 then (s, [])
    else
      var (s1, c1) := Step(s, evs[0]);
      var (s2, c2) := Run(s1, evs[1..]);
      (s2, c1 + c2)
  }

  /** The same run through the page as written. */
  function RunAsWritten(s: Shell, evs: seq<Event>): (out: (Shell, seq<Chime>))
    ensures Inv(s) ==> Inv(out.0)
    ensures |out.1| <= |evs|
    decreases |evs|
  {
    if |evs| == 0 then (s, [])
    else
      var (s1, c1) := StepAsWritten(s, evs[0]);
      var (s2, c2) := RunAsWritten(s1, evs[1..]);
      (s2, c1 + c2)
  }

  /** The wall clock never runs backwards along the events. */
  predicate InOrder(evs: seq<Event>) {
    forall i, j :: 0 <= i < j < |evs| ==> evs[i].now <= evs[j].now
  }

  /** No two chimes are for the same deadline. */
  predicate Distinct(cs: seq<Chime>) {
    forall i, j :: 0 <= i < j < |cs| ==> cs[i].deadline != cs[j].deadline
  }

  /** Prefixing at most one chime whose deadline the rest avoids keeps the
      deadlines distinct. */
  lemma DistinctPrefix(c1: seq<Chime>, c2: seq<Chime>)
    requires |c1| <= 1 && Distinct(c2)
    requires forall c :: c in c2 ==> c.deadline !in Deadlines(c1)
    ensures Distinct(c1 + c2)
  {
    forall i, j | 0 <= i < j < |c1 + c2|
      ensures (c1 + c2)[i].deadline != (c1 + c2)[j].deadline
    {
      assert (c1 + c2)[j] == c2[j - |c1|];
      assert c2[j - |c1|] in c2;
      if i < |c1| {
        assert (c1 + c2)[i] in c1;
      } else {
        assert (c1 + c2)[i] == c2[i - |c1|];
      }
    }
  }

  lemma {:induction false} RunChimesFresh(s: Shell, chimed: set<int>, clock: int, evs: seq<Event>)
    requires Inv(s) && Covered(s, chimed, clock) && InOrder(evs)
    requires |evs| > 0 ==> clock <= evs[0].now
    ensures var out := Run(s, evs).1;
      Distinct(out) && forall c :: c in out ==> c.deadline !in chimed
    decreases |evs|
  {
    if |evs| > 0 {
      var step := Step(s, evs[0]);
      var s1, c1 := step.0, step.1;
      StepChimesFresh(s, chimed, clock, evs[0]);
      RunChimesFresh(s1, chimed + Deadlines(c1), evs[0].now, evs[1..]);
      var c2 := Run(s1, evs[1..]).1;
      assert Run(s, evs).1 == c1 + c2;
      DistinctPrefix(c1, c2);
    }
  }

  lemma {:induction false} RunAsWrittenChimesFresh(s: Shell, chimed: set<int>, clock: int, evs: seq<Event>)
    requires Inv(s) && Covered(s, chimed, clock) && InOrder(evs)
    requires |evs| > 0 ==> clock <= evs[0].now
    ensures var out := RunAsWritten(s, evs).1;
      Distinct(out) && forall c :: c in out ==> c.deadline !in chimed
    decreases |evs|
  {
    if |evs| > 0 {
      var step := StepAsWritten(s, evs[0]);
      var s1, c1 := step.0, step.1;
      StepChimesFresh(s, chimed, clock, evs[0]);
      RunAsWrittenChimesFresh(s1, chimed + Deadlines(c1), evs[0].now, evs[1..]);
      var c2 := RunAsWritten(s1, evs[1..]).1;
      assert RunAsWritten(s, evs).1 == c1 + c2;
      DistinctPrefix(c1, c2);
    }
  }

  /** The completion chime the page plays itself, whether by the auto-switch
      fallback or by the catch-up check, sounds at most once per deadline
      along any run whose wall clock does not run backwards, both as the
      page is written and with the re-arm corrected. */
  lemma ChimeOncePerDeadline(s: Shell, evs: seq<Event>)
    requires Inv(s) && InOrder(evs)
    ensures Distinct(RunAsWritten(s, evs).1)
    ensures Distinct(Run(s, evs).1)
  {
    var clock := if |evs| > 0 then evs[0].now else 0;
    RunAsWrittenChimesFresh(s, {}, clock, evs);
    RunChimesFresh(s, {}, clock, evs);
  }
}
