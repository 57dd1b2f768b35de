/** The countdown-beep effect of the `useTimer` hook: at most one tick per
    displayed second in the last five, and one completion cue per deadline,
    deduplicated through the `lastSecondRef` and `completedRef` refs. */
module TimerCues {
  import opened Wrappers
  import opened Modes
  import opened DurationInput
  import opened Timer

  /** `lastSecondRef` and `completedRef`. */
  datatype Refs = Refs(lastSecond: Option<int>, completed: Option<int>)

  /** `resetBeepRefs`. */
  const NoRefs: Refs := Refs(None, None)

  /** A sound the effect asks the engine to play. */
  datatype Cue = TickCue(secondsLeft: int) | CompleteCue(endAt: int, next: Mode)

  /** `Math.ceil(ms / 1000)`: the whole seconds the countdown shows. */
  function CeilSeconds(ms: int): (r: int)
    ensures (r - 1) * 1000 < ms <= r * 1000
  {
    -((-ms) / 1000)
  }

  /** Condition for a tick: in the last five displayed seconds, and not the
      second ticked last. */
  predicate TickDue(s: State, refs: Refs, now: int) {
    var k := CeilSeconds(Remaining(s, now));
    s.running && s.endAt.Some? && 0 < k <= 5 && Some(k) != refs.lastSecond
  }

  /** Condition for the completion cue: no time left, and not yet played for
      this deadline. */
  predicate CompleteDue(s: State, refs: Refs, now: int) {
    s.running && s.endAt.Some? && Remaining(s, now) <= 0 && refs.completed != s.endAt
  }

  /** One run of the effect: the refs afterwards and the cues it plays. */
  function BeepEffect(s: State, refs: Refs, now: int): (out: (Refs, seq<Cue>))
    ensures var (r, cues) := out;
      && |cues| <= 2
      && (forall k :: TickCue(k) in cues <==>
            TickDue(s, refs, now) && k == CeilSeconds(Remaining(s, now)))
      && (forall e, n :: CompleteCue(e, n) in cues <==>
            CompleteDue(s, refs, now) && Some(e) == s.endAt && n == Next(s.mode))
      && r.lastSecond == (if TickDue(s, refs, now) then Some(CeilSeconds(Remaining(s, now))) else refs.lastSecond)
      && r.completed == (if CompleteDue(s, refs, now) then s.endAt else refs.completed)
  {
    if !s.running || s.endAt.None? then (refs, [])
    else
      var k := CeilSeconds(Remaining(s, now));
      var tick := TickDue(s, refs, now);
      var r1 := if tick then refs.(lastSecond := Some(k)) else refs;
      var c1: seq<Cue> := if tick then [TickCue(k)] else [];
      if CompleteDue(s, refs, now) then
        (r1.(completed := s.endAt), c1 + [CompleteCue(s.endAt.value, Next(s.mode))])
      else (r1, c1)
  }

  /** Re-running the effect with nothing changed plays nothing. */
  lemma BeepEffectIdempotent(s: State, refs: Refs, now: int)
    ensures var (r, _) := BeepEffect(s, refs, now);
      BeepEffect(s, r, now).1 == []
  {
  }

  /** The effect run at each instant of `times`, with the refs carried over
      and never reset in between. */
  function RunBeeps(s: State, refs: Refs, times: seq<int>): (out: (Refs, seq<Cue>))
    ensures forall c :: c in out.1 ==>
      || (c.TickCue? && 1 <= c.secondsLeft <= 5)
      || (s.endAt.Some? && c == CompleteCue(s.endAt.value, Next(s.mode)))
    decreases |times|
  {
    if |times| == 0 then (refs, [])
    else
      var (r1, c1) := BeepEffect(s, refs, times[0]);
      var (r2, c2) := RunBeeps(s, r1, times[1..]);
      (r2, c1 + c2)
  }

  predicate NonDecreasing(times: seq<int>) {
    forall i, j :: 0 <= i < j < |times| ==> times[i] <= times[j]
  }

  /** Ticks come in strictly decreasing order of seconds left, so no second
      is ticked twice. */
  predicate TicksDecreasing(cues: seq<Cue>) {
    forall i, j :: 0 <= i < j < |cues| && cues[i].TickCue? && cues[j].TickCue? ==>
      cues[i].secondsLeft > cues[j].secondsLeft
  }

  predicate AtMostOneComplete(cues: seq<Cue>) {
    forall i, j :: 0 <= i < j < |cues| && cues[i].CompleteCue? ==> !cues[j].CompleteCue?
  }

  /** Later instants never show more seconds left. */
  lemma CeilSecondsMonotone(s: State, t: int, u: int)
    requires Valid(s) && s.running && t <= u
    ensures CeilSeconds(Remaining(s, u)) <= CeilSeconds(Remaining(s, t))
  {
    RemainingCountsDown(s, t, u);
  }

  /** Between two ref resets, with the clock moving forward, each of the last
      five seconds is ticked at most once and the deadline gets at most one
      completion cue. */
  lemma RunBeepsAtMostOnce(s: State, times: seq<int>)
    requires Valid(s) && s.running && NonDecreasing(times)
    ensures var cues := RunBeeps(s, NoRefs, times).1;
      && TicksDecreasing(cues)
      && AtMostOneComplete(cues)
      && (forall c :: c in cues && c.TickCue? ==> 1 <= c.secondsLeft <= 5)
  {
    RunBeepsOrdered(s, NoRefs, times);
  }

  lemma {:induction false} RunBeepsOrdered(s: State, refs: Refs, times: seq<int>)
    requires Valid(s) && s.running && NonDecreasing(times)
    requires refs.lastSecond.Some? && |times| > 0 ==>
      refs.lastSecond.value >= CeilSeconds(Remaining(s, times[0]))
    ensures var cues := RunBeeps(s, refs, times).1;
      && TicksDecreasing(cues)
      && AtMostOneComplete(cues)
      && (forall c :: c in cues && c.TickCue? ==> 1 <= c.secondsLeft <= 5)
      && (refs.lastSecond.Some? ==>
            forall c :: c in cues && c.TickCue? ==> c.secondsLeft < refs.lastSecond.value)
      && (refs.completed == s.endAt ==> forall c :: c in cues ==> !c.CompleteCue?)
    decreases |times|
  {
    if |times| > 0 {
      var (r1, c1) := BeepEffect(s, refs, times[0]);
      var rest := times[1..];
      if |rest| > 0 {
        CeilSecondsMonotone(s, times[0], rest[0]);
      }
      RunBeepsOrdered(s, r1, rest);
      var c2 := RunBeeps(s, r1, rest).1;
      var cues := c1 + c2;
      assert RunBeeps(s, refs, times).1 == cues;
      forall i, j | 0 <= i < j < |cues| && cues[i].TickCue? && cues[j].TickCue?
        ensures cues[i].secondsLeft > cues[j].secondsLeft
      {
        if j < |c1| {
          assert false;
        } else if i < |c1| {
          assert cues[j] in c2;
        } else {
          assert cues[i] == c2[i - |c1|] && cues[j] == c2[j - |c1|];
        }
      }
      forall i, j | 0 <= i < j < |cues| && cues[i].CompleteCue?
        ensures !cues[j].CompleteCue?
      {
        if j >= |c1| && i < |c1| {
          assert cues[j] in c2;
        } else if i >= |c1| {
          assert cues[i] == c2[i - |c1|] && cues[j] == c2[j - |c1|];
        }
      }
    }
  }

  /** Hook events: the clock tick and the four controls. A duration edit
      reaches the hook only through the durations passed to `Step`. */
  datatype Event =
    | Tick(now: int)
    | PressPlayPause(now: int)
    | PressSkip
    | PressReset
    | PressAddTime(sec: int)

  /** One event: the handler or the tick's effects (beeps, then the
      auto-switch), followed by the idle effect. */
  function Step(s: State, refs: Refs, ev: Event, d: Durations): (out: (State, Refs, seq<Cue>))
    requires d.Valid()
    ensures Valid(s) ==> Valid(out.0)
    ensures !ev.Tick? ==> out.2 == []
    ensures ev.Tick? && Completes(s, ev.now) ==> out.1 == NoRefs
  {
    match ev
    case Tick(now) =>
      var (r1, cues) := BeepEffect(s, refs, now);
      var s1 := AutoSwitch(s, now, d);
      (Settle(s1, d), if Completes(s, now) then NoRefs else r1, cues)
    case PressPlayPause(now) => (Settle(PlayPause(s, now), d), NoRefs, [])
    case PressSkip => (Settle(Skip(s, d), d), NoRefs, [])
    case PressReset => (Settle(Reset(s, d), d), NoRefs, [])
    case PressAddTime(sec) =>
      (Settle(AddTime(s, sec), d), if sec > 0 && s.running && s.endAt.Some? then NoRefs else refs, [])
  }

  /** A completing tick plays the completion cue for the old deadline,
      announcing the mode it switches to, and a second tick at the same
      instant plays nothing: the new session still has a full minute. */
  lemma CompletionCueOnce(s: State, refs: Refs, now: int, d: Durations)
    requires d.Valid() && Valid(s) && Completes(s, now) && refs.completed != s.endAt
    ensures var (s1, r1, cues) := Step(s, refs, Tick(now), d);
      && CompleteCue(s.endAt.value, s1.mode) in cues
      && Step(s1, r1, Tick(now), d).2 == []
  {
    var (s1, r1, cues) := Step(s, refs, Tick(now), d);
    assert s1 == AutoSwitch(s, now, d);
    assert Remaining(s1, now) >= 60000;
  }
}
