/** The older single-file page (`App.jsx`): the same focus/break cycle, but
    stopped time is kept in whole seconds in `totalSec`, a pause locks that
    value against the idle recompute, and each minute that passes while
    running drops a dot on the dial, at most 140 of them. The rendered
    instant `now` advances only on animation frames while running. */
module LegacyApp {
  import opened Wrappers
  import opened Modes
  import opened Decimal
  import opened DurationInput
  import Timer

  /** `.slice(-140)`: the dot list keeps at most this many entries. */
  const MaxDots: int := 140

  /** A minute dot: the id's timestamp and list position, and the share of
      the session already elapsed when it was dropped (the dial angle over
      one full turn). */
  datatype Dot = Dot(stamp: int, serial: nat, elapsed: real)

  datatype Page = Page(
    focusText: DigitString,
    breakText: DigitString,
    mode: Mode,
    running: bool,
    endAt: Option<int>,
    totalSec: int,
    cycle: int,
    now: int,
    dots: seq<Dot>,
    lastMinute: int,
    locked: bool)

  /** The whole seconds of mode `m`'s duration. */
  function BaseSec(m: Mode, d: Durations): int {
    (if m == Focus then d.focusMin else d.breakMin) * 60
  }

  /** The page as first rendered: break mode, five minutes, cycle 1. */
  function Start(clock: int): (p: Page)
    ensures Valid(p) && p.mode == Break && !p.running && p.cycle == 1
    ensures p.totalSec == BaseSec(Break, DurationsOf(p.focusText, p.breakText)) == 300
  {
    Page("30", "5", Break, false, None, 300, 1, clock, [], 5, false)
  }

  /** What every step keeps: a running page has a deadline and a stopped one
      none, `totalSec` is not negative, the dot list is capped, and a
      stopped page that is not locked shows its mode's full duration. */
  predicate Valid(p: Page) {
    && p.cycle >= 1
    && p.totalSec >= 0
    && (p.running <==> p.endAt.Some?)
    && |p.dots| <= MaxDots
    && (!p.running && !p.locked ==> p.totalSec == BaseSec(p.mode, DurationsOf(p.focusText, p.breakText)))
  }

  /** `remainingFloat` in milliseconds: the deadline minus the rendered
      instant, floored at zero, or the stored whole seconds when there is
      no deadline. */
  function RemainingMs(p: Page): (r: int)
    ensures p.endAt.Some? ==> r == Wrappers.Max(0, p.endAt.value - p.now)
    ensures p.endAt.None? ==> r == p.totalSec * 1000
    ensures p.totalSec >= 0 ==> r >= 0
  {
    if p.endAt.Some? then Wrappers.Max(0, p.endAt.value - p.now) else p.totalSec * 1000
  }

  /** `fraction`: the share still to run, clamped to [0, 1], and 0 when
      there is no total. */
  function Fraction(p: Page): (r: real)
    ensures 0.0 <= r <= 1.0
    ensures p.totalSec == 0 ==> r == 0.0
    ensures p.totalSec > 0 && 0 <= RemainingMs(p) <= p.totalSec * 1000 ==>
      r * (p.totalSec * 1000) as real == RemainingMs(p) as real
  {
    Timer.Clamp01(if p.totalSec != 0 then RemainingMs(p) as real / (p.totalSec * 1000) as real else 0.0)
  }

  /** The idle recompute: stopped and not locked, show the mode's full
      duration. */
  function Idle(p: Page): (r: Page)
    ensures p.running || p.locked ==> r == p
    ensures !p.running && !p.locked ==> r.totalSec == BaseSec(p.mode, DurationsOf(p.focusText, p.breakText))
    ensures r.mode == p.mode && r.running == p.running && r.endAt == p.endAt && r.locked == p.locked
    ensures r.dots == p.dots && r.cycle == p.cycle && r.now == p.now
  {
    if !p.running && !p.locked then
      var base := BaseSec(p.mode, DurationsOf(p.focusText, p.breakText));
      p.(totalSec := base, lastMinute := base / 60)
    else p
  }

  /** `[...dots, d].slice(-140)`: append, then keep only the newest 140. */
  function AppendCapped(ds: seq<Dot>, d: Dot): (r: seq<Dot>)
    ensures |r| == if |ds| + 1 <= MaxDots then |ds| + 1 else MaxDots
    ensures r == (ds + [d])[|ds| + 1 - |r|..]
    ensures r[|r| - 1] == d
  {
    var all := ds + [d];
    if |all| <= MaxDots then all else all[|all| - MaxDots..]
  }

  /** The minute-dot effect: while running with a total, entering a new
      whole minute of remaining time drops one dot. */
  function Dots(p: Page, clock: int): (r: Page)
    ensures r.focusText == p.focusText && r.breakText == p.breakText && r.mode == p.mode
    ensures r.running == p.running && r.endAt == p.endAt && r.totalSec == p.totalSec
    ensures r.cycle == p.cycle && r.now == p.now && r.locked == p.locked
    ensures !p.running || p.totalSec == 0 || RemainingMs(p) / 60000 == p.lastMinute ==> r == p
    ensures p.running && p.totalSec != 0 && RemainingMs(p) / 60000 != p.lastMinute ==>
      && r.lastMinute == RemainingMs(p) / 60000
      && r.dots == AppendCapped(p.dots, Dot(clock, |p.dots|, 1.0 - Fraction(p)))
  {
    if !p.running || p.totalSec == 0 then p
    else
      var m := RemainingMs(p) / 60000;
      if m != p.lastMinute then
        p.(lastMinute := m, dots := AppendCapped(p.dots, Dot(clock, |p.dots|, 1.0 - Fraction(p))))
      else p
  }

  /** The auto-switch effect's trigger: running, a deadline, nothing left. */
  predicate Completes(p: Page) {
    p.running && p.endAt.Some? && RemainingMs(p) <= 0
  }

  /** The auto-switch: flip the mode, count a cycle when leaving a break,
      unlock, load the next duration, clear the dots, and run on toward a
      fresh deadline. */
  function AutoSwitch(p: Page, clock: int): (r: Page)
    ensures !Completes(p) ==> r == p
    ensures Completes(p) ==>
      && r.mode == Next(p.mode)
      && r.cycle == (if p.mode == Break then p.cycle + 1 else p.cycle)
      && r.totalSec == BaseSec(r.mode, DurationsOf(p.focusText, p.breakText))
      && r.running && r.endAt == Some(clock + r.totalSec * 1000) && r.now == clock
      && r.dots == [] && !r.locked
  {
    if !Completes(p) then p
    else
      var next := Next(p.mode);
      var nt := BaseSec(next, DurationsOf(p.focusText, p.breakText));
      p.(mode := next, cycle := if p.mode == Break then p.cycle + 1 else p.cycle,
         locked := false, totalSec := nt, lastMinute := nt / 60, dots := [],
         endAt := Some(clock + nt * 1000), now := clock)
  }

  /** The animation frame: while running toward a deadline, render `clock`. */
  function Frame(p: Page, clock: int): (r: Page)
    ensures r.(now := p.now) == p
    ensures p.running && p.endAt.Some? ==> r.now == clock
    ensures !p.running ==> r == p
  {
    if p.running && p.endAt.Some? then p.(now := clock) else p
  }

  /** `togglePlayPause`. Play unlocks and runs toward `clock` plus the shown
      remainder. Pause stores the remainder, floored to whole seconds, and
      locks it. */
  function TogglePlayPause(p: Page, clock: int): (r: Page)
    ensures !p.running ==>
      && r.running && !r.locked && r.now == clock
      && r.endAt == Some(clock + RemainingMs(p)) && r.totalSec == p.totalSec
    ensures p.running ==>
      && !r.running && r.locked && r.endAt.None?
      && r.totalSec == Wrappers.Max(0, RemainingMs(p) / 1000)
    ensures r.mode == p.mode && r.cycle == p.cycle && r.dots == p.dots
  {
    if !p.running then
      p.(locked := false, endAt := Some(clock + RemainingMs(p)), running := true, now := clock)
    else
      var rem := RemainingMs(p);
      p.(running := false, endAt := None, totalSec := Wrappers.Max(0, rem / 1000), locked := true)
  }

  /** `skip`: flip the mode without counting a cycle, stop, load the new
      mode's duration, clear the dots and unlock. */
  function Skip(p: Page): (r: Page)
    ensures r.mode == Next(p.mode) && r.cycle == p.cycle
    ensures !r.running && r.endAt.None? && !r.locked && r.dots == []
    ensures r.totalSec == BaseSec(r.mode, DurationsOf(p.focusText, p.breakText))
  {
    var next := Next(p.mode);
    var sec := BaseSec(next, DurationsOf(p.focusText, p.breakText));
    p.(mode := next, running := false, endAt := None, totalSec := sec,
       lastMinute := sec / 60, dots := [], locked := false)
  }

  datatype Kind =
    | AnimationFrame
    | PressPlayPause
    | PressSkip
    | TypeFocus(raw: string)
    | TypeBreak(raw: string)
    | BlurFocus
    | BlurBreak

  /** An event at wall-clock instant `clock` (milliseconds). */
  datatype Event = Event(clock: int, kind: Kind)

  /** The handler for one event. A frame moves only the rendered instant,
      an edit or a blur touches only its own field, and no handler breaks
      the shape of a valid page. */
  function Handle(p: Page, ev: Event): (r: Page)
    ensures Valid(p) ==> Shaped(r)
    ensures ev.kind.AnimationFrame? ==> r.(now := p.now) == p
    ensures ev.kind.TypeFocus? || ev.kind.BlurFocus? ==> r.(focusText := p.focusText) == p
    ensures ev.kind.TypeBreak? || ev.kind.BlurBreak? ==> r.(breakText := p.breakText) == p
    ensures ev.kind.TypeFocus? ==> r.focusText == OnlyDigits(ev.kind.raw)
    ensures ev.kind.TypeBreak? ==> r.breakText == OnlyDigits(ev.kind.raw)
    ensures ev.kind.BlurFocus? && p.focusText != "" ==> MinMinutes <= Value(r.focusText) <= MaxMinutes
    ensures ev.kind.BlurBreak? && p.breakText != "" ==> MinMinutes <= Value(r.breakText) <= MaxMinutes
    ensures ev.kind.PressPlayPause? ==> r.running == !p.running
    ensures ev.kind.PressSkip? ==> r.mode == Next(p.mode) && !r.running
  {
    match ev.kind
    case AnimationFrame => Frame(p, ev.clock)
    case PressPlayPause => TogglePlayPause(p, ev.clock)
    case PressSkip => Skip(p)
    case TypeFocus(raw) => p.(focusText := OnlyDigits(raw))
    case TypeBreak(raw) => p.(breakText := OnlyDigits(raw))
    case BlurFocus => p.(focusText := LegacyBlur(p.focusText, "30"))
    case BlurBreak => p.(breakText := LegacyBlur(p.breakText, "5"))
  }

  /** The three effects in their order on the page: the idle recompute, the
      minute dots, the auto-switch. Each effect is guarded so that running
      it again with unchanged inputs changes nothing, so they are applied
      after every event. */
  function Effects(p: Page, clock: int): (r: Page)
    ensures Shaped(p) ==> Valid(r)
    ensures r.focusText == p.focusText && r.breakText == p.breakText
  {
    var b := Dots(Idle(p), clock);
    assert Shaped(p) ==> Shaped(b);
    assert Shaped(p) && !b.running && !b.locked ==>
      b.totalSec == BaseSec(b.mode, DurationsOf(b.focusText, b.breakText));
    AutoSwitch(b, clock)
  }

  /** The effects are guarded: running them a second time at the same
      instant, with nothing changed, changes nothing. */
  lemma EffectsSettle(p: Page, clock: int)
    ensures Effects(Effects(p, clock), clock) == Effects(p, clock)
  {
    var b := Dots(Idle(p), clock);
    var r := AutoSwitch(b, clock);
    assert Idle(Idle(p)) == Idle(p);
    if Completes(b) {
      assert Idle(r) == r;
      assert RemainingMs(r) == r.totalSec * 1000 && r.totalSec >= 60;
      assert RemainingMs(r) / 60000 == r.lastMinute;
      assert Dots(r, clock) == r;
    } else {
      assert r == b;
      assert Idle(b) == b;
      assert Dots(b, clock) == b;
    }
  }

  /** One event and the effects after it. Every event keeps the page valid;
      in particular the dot list never holds more than 140 dots. */
  function Step(p: Page, ev: Event): (r: Page)
    ensures Valid(p) ==> Valid(r)
  {
    Effects(Handle(p, ev), ev.clock)
  }

  /** Everything `Valid` asks except the idle condition, which the effects
      restore. */
  predicate Shaped(p: Page) {
    && p.cycle >= 1
    && p.totalSec >= 0
    && (p.running <==> p.endAt.Some?)
    && |p.dots| <= MaxDots
  }

  /** A pause followed by a play resumes from the remainder floored to whole
      seconds: up to a second is lost, and never more. */
  lemma PausePlayDropsSubSecond(p: Page, pauseAt: int, playAt: int)
    requires Valid(p) && p.running && RemainingMs(p) >= 1000
    ensures var q := Step(p, Event(pauseAt, PressPlayPause));
      var r := Step(q, Event(playAt, PressPlayPause));
      && !q.running && q.locked && q.totalSec == RemainingMs(p) / 1000
      && r.running && !r.locked
      && RemainingMs(r) == RemainingMs(p) - RemainingMs(p) % 1000
      && RemainingMs(p) - 1000 < RemainingMs(r) <= RemainingMs(p)
  {
    var q := TogglePlayPause(p, pauseAt);
    assert Handle(p, Event(pauseAt, PressPlayPause)) == q;
    assert Step(p, Event(pauseAt, PressPlayPause)) == q;
    var r0 := TogglePlayPause(q, playAt);
    assert Handle(q, Event(playAt, PressPlayPause)) == r0;
    assert RemainingMs(r0) == q.totalSec * 1000;
    var r1 := Dots(Idle(r0), playAt);
    assert RemainingMs(r1) == RemainingMs(r0);
    assert !Completes(r1);
  }

  /** While a pause holds the lock, editing a duration leaves the stored
      remainder alone. */
  lemma LockedPauseSurvivesEdits(p: Page, clock: int, raw: string)
    requires Valid(p) && !p.running && p.locked
    ensures Step(p, Event(clock, TypeFocus(raw))).totalSec == p.totalSec
    ensures Step(p, Event(clock, TypeBreak(raw))).totalSec == p.totalSec
  {
  }

  /** Stopped and unlocked, the page follows the edited duration. */
  lemma UnlockedIdleFollowsEdits(p: Page, clock: int, raw: string)
    requires Valid(p) && !p.running && !p.locked
    ensures Step(p, Event(clock, TypeFocus(raw))).totalSec
      == BaseSec(p.mode, DurationsOf(OnlyDigits(raw), p.breakText))
  {
  }

  /** A frame past the deadline switches the mode, counts a cycle only when
      leaving a break, clears the dots and runs on with the next duration. */
  lemma FrameCompletes(p: Page, clock: int)
    requires Valid(p) && p.running && p.endAt.value <= clock
    ensures var r := Step(p, Event(clock, AnimationFrame));
      && r.mode == Next(p.mode)
      && r.cycle == (if p.mode == Break then p.cycle + 1 else p.cycle)
      && r.totalSec == BaseSec(r.mode, DurationsOf(p.focusText, p.breakText)) && r.dots == []
      && r.running && r.endAt == Some(clock + r.totalSec * 1000)
  {
    var f := Frame(p, clock);
    assert Handle(p, Event(clock, AnimationFrame)) == f;
    assert Completes(Dots(Idle(f), clock));
  }

  /** Two skips restore the mode, stopped with that mode's full duration,
      with the cycle untouched. */
  lemma SkipTwiceRestoresMode(p: Page, c1: int, c2: int)
    requires Valid(p)
    ensures var r := Step(Step(p, Event(c1, PressSkip)), Event(c2, PressSkip));
      && r.mode == p.mode && r.cycle == p.cycle
      && !r.running && !r.locked && r.dots == []
      && r.totalSec == BaseSec(p.mode, DurationsOf(p.focusText, p.breakText))
  {
    NextNext(p.mode);
    var q := Step(p, Event(c1, PressSkip));
    assert Handle(p, Event(c1, PressSkip)) == Skip(p);
    assert q == Skip(p).(totalSec := BaseSec(Next(p.mode), DurationsOf(p.focusText, p.breakText)), lastMinute := BaseSec(Next(p.mode), DurationsOf(p.focusText, p.breakText)) / 60);
    assert Handle(q, Event(c2, PressSkip)) == Skip(q);
  }
}
