/** The timer state machine of the `useTimer` hook (the same handlers are
    inlined in the TypeScript `App`): each React handler or effect is one
    atomic transition taking the wall-clock reading `now` in milliseconds. */
module Timer {
  import opened Wrappers
  import opened Modes
  import opened DurationInput

  /** Guard below which a resumed remainder counts as degenerate (0.5 s). */
  const ResumeFloorMs: int := 500
  /** Last-resort duration when both stored times are zero (60 s). */
  const FallbackMs: int := 60000

  /** The key the idle effect compares: mode and both minute counts. */
  datatype Key = Key(mode: Mode, focusMin: int, breakMin: int)

  /** Hook state. `endAt` is an epoch-millisecond deadline, so a present
      deadline is never 0 and JavaScript's truthiness test is presence. */
  datatype State = State(
    mode: Mode,
    cycle: int,
    running: bool,
    started: bool,
    endAt: Option<int>,
    pausedMs: int,
    totalMs: int,
    lastKey: Option<Key>)

  /** What every handler keeps true. */
  predicate Valid(s: State) {
    && s.cycle >= 1
    && s.pausedMs >= 0
    && s.totalMs >= 0
    && (s.running <==> s.endAt.Some?)
    && (s.running ==> s.started)
  }

  /** The configured length of a phase, `minutes * 60` seconds. */
  function DurationMs(m: Mode, d: Durations): (r: int)
    requires d.Valid()
    ensures r >= 60000
    ensures r == (if m == Focus then d.focusMin else d.breakMin) * 60000
  {
    (if m == Focus then d.focusMin else d.breakMin) * 60 * 1000
  }

  function KeyOf(m: Mode, d: Durations): Key {
    Key(m, d.focusMin, d.breakMin)
  }

  /** The hook's first state: focus, cycle 1, stopped, full focus time. */
  function Init(d: Durations): (s: State)
    requires d.Valid()
    ensures Valid(s) && s.mode == Focus && s.cycle == 1 && !s.running
    ensures Remaining(s, 0) == DurationMs(Focus, d) && s.totalMs == DurationMs(Focus, d)
  {
    State(Focus, 1, false, false, None, d.focusMin * 60000, d.focusMin * 60000, None)
  }

  /** Remaining time: the deadline minus `now`, clamped at zero, while a
      deadline exists; the stored remainder otherwise. */
  function Remaining(s: State, now: int): (r: int)
    ensures Valid(s) ==> r >= 0
    ensures s.endAt.Some? && now <= s.endAt.value ==> r == s.endAt.value - now
    ensures s.endAt.Some? && now >= s.endAt.value ==> r == 0
    ensures s.endAt.None? ==> r == s.pausedMs
  {
    if s.endAt.Some? then Max(0, s.endAt.value - now) else s.pausedMs
  }

  /** `clamp01`. */
  function Clamp01(x: real): (r: real)
    ensures 0.0 <= r <= 1.0
    ensures 0.0 <= x <= 1.0 ==> r == x
    ensures x < 0.0 ==> r == 0.0
    ensures x > 1.0 ==> r == 1.0
  {
    if x < 0.0 then 0.0 else if x > 1.0 then 1.0 else x
  }

  /** The share of the session still to run. */
  function FracRemaining(s: State, now: int): (r: real)
    ensures 0.0 <= r <= 1.0
    ensures s.totalMs == 0 ==> r == 0.0
    ensures Valid(s) && s.totalMs > 0 && Remaining(s, now) <= s.totalMs ==>
      r * s.totalMs as real == Remaining(s, now) as real
  {
    Clamp01(if s.totalMs != 0 then Remaining(s, now) as real / s.totalMs as real else 0.0)
  }

  /** While running, the remainder counts down one-for-one until the
      deadline and stays at zero afterwards. */
  lemma RemainingCountsDown(s: State, t: int, u: int)
    requires Valid(s) && s.running && t <= u
    ensures Remaining(s, t) - Remaining(s, u) <= u - t
    ensures Remaining(s, u) <= Remaining(s, t)
    ensures u <= s.endAt.value ==> Remaining(s, u) == s.endAt.value - u
    ensures u >= s.endAt.value ==> Remaining(s, u) == 0
  {
  }

  /** The auto-switch effect: once a running session has no time left, flip
      the mode, count a cycle when leaving a break, load the next duration
      and keep running toward a fresh deadline. */
  function AutoSwitch(s: State, now: int, d: Durations): (r: State)
    requires d.Valid()
    ensures !Completes(s, now) ==> r == s
    ensures Completes(s, now) ==>
      && r.mode == Next(s.mode)
      && r.cycle == (if s.mode == Break then s.cycle + 1 else s.cycle)
      && r.totalMs == r.pausedMs == DurationMs(r.mode, d)
      && r.running && r.endAt == Some(now + r.totalMs)
      && r.lastKey == Some(KeyOf(r.mode, d))
      && r.started == s.started
    ensures Valid(s) ==> Valid(r)
  {
    if !Completes(s, now) then s
    else
      var next := Next(s.mode);
      var nt := DurationMs(next, d);
      s.(mode := next,
         cycle := if s.mode == Break then s.cycle + 1 else s.cycle,
         totalMs := nt, pausedMs := nt,
         endAt := Some(now + nt),
         lastKey := Some(KeyOf(next, d)))
  }

  /** The effect's trigger: running, a deadline set, nothing left. */
  predicate Completes(s: State, now: int) {
    s.running && s.endAt.Some? && Remaining(s, now) <= 0
  }

  /** Completion is applied once per deadline: polling again at any instant
      before the new deadline changes nothing. */
  lemma AutoSwitchOncePerDeadline(s: State, now: int, later: int, d: Durations)
    requires d.Valid() && Completes(s, now)
    requires now <= later < now + DurationMs(Next(s.mode), d)
    ensures AutoSwitch(AutoSwitch(s, now, d), later, d) == AutoSwitch(s, now, d)
  {
  }

  /** Two completions in a row come back to the starting mode with exactly
      one more cycle, whichever mode the pair started in. */
  lemma TwoCompletionsOneCycle(s: State, t1: int, t2: int, d: Durations)
    requires d.Valid() && Completes(s, t1)
    requires Completes(AutoSwitch(s, t1, d), t2)
    ensures var r := AutoSwitch(AutoSwitch(s, t1, d), t2, d);
      r.mode == s.mode && r.cycle == s.cycle + 1
  {
  }

  /** The remainder `play` resumes from: a future deadline's remainder, else
      the stored one; below 0.5 s it is replaced by `pausedSec || totalSec || 60`. */
  function ResumeMs(s: State, now: int): (rem: int)
    ensures Valid(s) ==> rem > 0
    ensures rem >= ResumeFloorMs || rem == s.pausedMs || (s.pausedMs == 0 && rem == s.totalMs)
  {
    var rem := if s.endAt.Some? && s.endAt.value > now then s.endAt.value - now else s.pausedMs;
    if rem < ResumeFloorMs then
      (if s.pausedMs != 0 then s.pausedMs else if s.totalMs != 0 then s.totalMs else FallbackMs)
    else rem
  }

  /** `playPause` while stopped: run toward `now` plus the resume remainder. */
  function Play(s: State, now: int): (r: State)
    ensures r.running && r.started && r.endAt.Some?
    ensures r.endAt.value - now == ResumeMs(s, now)
    ensures Valid(s) ==> Valid(r) && r.endAt.value > now
    ensures r.mode == s.mode && r.cycle == s.cycle && r.pausedMs == s.pausedMs && r.totalMs == s.totalMs
    ensures Valid(s) && !s.running && s.pausedMs >= ResumeFloorMs ==> Remaining(r, now) == Remaining(s, now)
  {
    s.(started := true, endAt := Some(now + ResumeMs(s, now)), running := true)
  }

  /** `playPause` while running: freeze the remainder and drop the deadline. */
  function Pause(s: State, now: int): (r: State)
    ensures !r.running && r.endAt.None?
    ensures r.pausedMs >= 0
    ensures s.pausedMs >= 0 ==> r.pausedMs == Remaining(s, now)
    ensures Valid(s) ==> Valid(r) && Remaining(r, now) == Remaining(s, now)
    ensures r.mode == s.mode && r.cycle == s.cycle && r.totalMs == s.totalMs
  {
    var rem := Max(0, if s.endAt.Some? then s.endAt.value - now else s.pausedMs);
    s.(running := false, endAt := None, pausedMs := rem)
  }

  /** `playPause`: play when stopped, pause when running. Mode, cycle and
      total are kept, and so is the remainder whenever at least 0.5 s was
      left. */
  function PlayPause(s: State, now: int): (r: State)
    ensures r.running == !s.running
    ensures r.mode == s.mode && r.cycle == s.cycle && r.totalMs == s.totalMs
    ensures Valid(s) ==> Valid(r)
    ensures Valid(s) && Remaining(s, now) >= ResumeFloorMs ==> Remaining(r, now) == Remaining(s, now)
  {
    if !s.running then Play(s, now) else Pause(s, now)
  }

  /** Pausing and playing again at the same instant restores the exact state
      whenever at least 0.5 s was left. */
  lemma PauseThenPlay(s: State, now: int)
    requires Valid(s) && s.running && Remaining(s, now) >= ResumeFloorMs
    ensures PlayPause(PlayPause(s, now), now) == s.(pausedMs := Remaining(s, now))
    ensures Remaining(PlayPause(PlayPause(s, now), now), now) == Remaining(s, now)
  {
  }

  /** The degenerate-remainder guard keeps a stored remainder under 0.5 s:
      only a zero remainder is replaced by the full time. */
  lemma PlayKeepsShortRemainder(s: State, now: int)
    requires Valid(s) && !s.running && 0 < s.pausedMs < ResumeFloorMs
    ensures Remaining(Play(s, now), now) == s.pausedMs
  {
  }

  /** A zero remainder resumes from the session's total time. */
  lemma PlayAfterZeroUsesTotal(s: State, now: int)
    requires Valid(s) && !s.running && s.pausedMs == 0 && s.totalMs > 0
    ensures Remaining(Play(s, now), now) == s.totalMs
  {
  }

  /** `skip`: flip the mode without counting a cycle, stop, and load the new
      mode's duration. */
  function Skip(s: State, d: Durations): (r: State)
    requires d.Valid()
    ensures r.mode == Next(s.mode) && r.cycle == s.cycle
    ensures !r.running && r.endAt.None?
    ensures r.totalMs == r.pausedMs == DurationMs(r.mode, d)
    ensures Valid(s) ==> Valid(r)
  {
    var next := Next(s.mode);
    var sec := DurationMs(next, d);
    s.(mode := next, running := false, endAt := None, totalMs := sec, pausedMs := sec)
  }

  /** `resetTimer`: keep mode and cycle, stop, reload the current duration. */
  function Reset(s: State, d: Durations): (r: State)
    requires d.Valid()
    ensures r.mode == s.mode && r.cycle == s.cycle
    ensures !r.running && r.endAt.None?
    ensures r.totalMs == r.pausedMs == DurationMs(s.mode, d)
    ensures Valid(s) ==> Valid(r)
  {
    var sec := DurationMs(s.mode, d);
    s.(running := false, endAt := None, totalMs := sec, pausedMs := sec,
       lastKey := Some(KeyOf(s.mode, d)))
  }

  /** Two skips are a reset that leaves the idle effect's key alone. */
  lemma SkipTwiceIsReset(s: State, d: Durations)
    requires d.Valid()
    ensures Skip(Skip(s, d), d) == Reset(s, d).(lastKey := s.lastKey)
  {
  }

  lemma ResetIdempotent(s: State, d: Durations)
    requires d.Valid()
    ensures Reset(Reset(s, d), d) == Reset(s, d)
  {
  }

  /** `addTime(sec)`: nothing for a non-positive amount; otherwise the total
      grows by `sec`, and so does the deadline when running or the stored
      remainder when stopped. */
  function AddTime(s: State, sec: int): (r: State)
    ensures sec <= 0 ==> r == s
    ensures sec > 0 ==> r.totalMs == s.totalMs + sec * 1000
    ensures sec > 0 && s.running && s.endAt.Some? ==>
      r.endAt == Some(s.endAt.value + sec * 1000) && r.pausedMs == s.pausedMs
    ensures sec > 0 && !s.running ==> r.pausedMs == s.pausedMs + sec * 1000 && r.endAt == s.endAt
    ensures r.mode == s.mode && r.cycle == s.cycle && r.running == s.running
    ensures Valid(s) ==> Valid(r)
  {
    if sec <= 0 then s
    else
      var s1 := s.(totalMs := s.totalMs + sec * 1000);
      if s.running && s.endAt.Some? then s1.(endAt := Some(s.endAt.value + sec * 1000))
      else if !s.running then s1.(pausedMs := s.pausedMs + sec * 1000)
      else s1
  }

  /** Added time shows up one-for-one in the remainder unless the running
      deadline has already passed. */
  lemma AddTimeExtendsRemaining(s: State, sec: int, now: int)
    requires Valid(s) && sec > 0
    requires s.running ==> s.endAt.value >= now
    ensures Remaining(AddTime(s, sec), now) == Remaining(s, now) + sec * 1000
    ensures FracRemaining(AddTime(s, sec), now) >= 0.0
  {
  }

  /** The idle effect: while stopped, a change of mode or of either duration
      reloads the current mode's duration into both times. */
  function Settle(s: State, d: Durations): (r: State)
    requires d.Valid()
    ensures s.running || s.lastKey == Some(KeyOf(s.mode, d)) ==> r == s
    ensures !s.running && s.lastKey != Some(KeyOf(s.mode, d)) ==>
      r == s.(totalMs := DurationMs(s.mode, d), pausedMs := DurationMs(s.mode, d),
              lastKey := Some(KeyOf(s.mode, d)))
    ensures Valid(s) ==> Valid(r)
  {
    if s.running then s
    else if s.lastKey != Some(KeyOf(s.mode, d)) then
      var base := DurationMs(s.mode, d);
      s.(totalMs := base, pausedMs := base, lastKey := Some(KeyOf(s.mode, d)))
    else s
  }

  /** After a skip the idle effect only records the key: the times skip
      loaded are the ones it would load. */
  lemma SettleAfterSkip(s: State, d: Durations)
    requires d.Valid()
    ensures var k := Skip(s, d);
      Settle(k, d) == k.(lastKey := Some(KeyOf(k.mode, d)))
  {
  }

  /** A reset already records its key, so the idle effect leaves it alone. */
  lemma SettleAfterReset(s: State, d: Durations)
    requires d.Valid()
    ensures Settle(Reset(s, d), d) == Reset(s, d)
  {
  }

  /** Editing a duration while paused discards the paused remainder: the
      next idle pass reloads the full new duration. */
  lemma EditWhilePausedReloads(s: State, d: Durations, d2: Durations)
    requires d.Valid() && d2.Valid() && Valid(s) && !s.running
    requires s.lastKey == Some(KeyOf(s.mode, d)) && KeyOf(s.mode, d2) != KeyOf(s.mode, d)
    ensures Remaining(Settle(s, d2), 0) == DurationMs(s.mode, d2)
  {
  }
}
