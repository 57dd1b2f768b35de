/** The sound engine: the lazily created audio context and master gain, the
    mute rule, one-shot blips and the completion chime, and (in the
    TypeScript `App`'s engine) the list of cues scheduled ahead on the audio
    clock. Times are audio-clock milliseconds. */
module SoundEngine {
  import opened Wrappers
  import opened Modes
  import opened Chime

  /** Gain of the master node in hundredths: 0.6 in the hook's engine, 0.4 in
      the TypeScript `App`'s own engine. */
  const HookVolume: int := 60
  const AppVolume: int := 40

  /** Countdown ticks before the deadline and their spacing. */
  const TickCount: nat := 5
  const TickSpacingMs: int := 1000

  /** Constructing the audio context throws when the host has none. */
  datatype AudioError = NoAudioContext

  /** A cue placed on the audio timeline by `scheduleCompleteIn`. */
  datatype ScheduledCue =
    | TickAt(at: int)
    | NoteAt(at: int, index: int, freq: int, peak: int)

  /** A sound started immediately. */
  datatype Sound = Sound(at: int, freq: int, peak: int)

  datatype Engine = Engine(
    hasCtx: bool,
    hasMaster: bool,
    unlocked: bool,
    volume: int,
    muted: bool,
    gain: int,
    scheduled: seq<ScheduledCue>,
    nextMode: Mode)

  /** A fresh engine: no context yet, not muted, the default next mode. */
  function NewEngine(volume: int): (e: Engine)
    requires volume > 0
    ensures Wf(e) && !e.hasCtx && e.scheduled == []
  {
    Engine(false, false, false, volume, false, 0, [], Break)
  }

  /** What the engine's methods keep true: context and master exist
      together, the master gain follows the mute flag, and cues are only
      scheduled on an existing context. */
  predicate Wf(e: Engine) {
    && e.volume > 0
    && (e.hasCtx <==> e.hasMaster)
    && (e.hasMaster ==> e.gain == (if e.muted then 0 else e.volume))
    && (|e.scheduled| > 0 ==> e.hasCtx)
  }

  /** `ensure`: create the context and master gain on first use. */
  function Ensure(e: Engine, host: bool): (r: Result<Engine, AudioError>)
    ensures e.hasCtx ==> r == Ok(e)
    ensures !e.hasCtx && !host ==> r == Err(NoAudioContext)
    ensures r.Ok? ==> r.value.hasCtx && r.value.scheduled == e.scheduled && r.value.muted == e.muted
    ensures Wf(e) && r.Ok? ==> Wf(r.value) && r.value.hasMaster
  {
    if e.hasCtx then Ok(e)
    else if host then Ok(e.(hasCtx := true, hasMaster := true, gain := if e.muted then 0 else e.volume))
    else Err(NoAudioContext)
  }

  /** `unlock`: ensure the context, then mark it unlocked if resuming it
      succeeds (a failed resume is swallowed). */
  function Unlock(e: Engine, host: bool, resumes: bool): (r: Result<Engine, AudioError>)
    ensures r.Ok? <==> Ensure(e, host).Ok?
    ensures r.Ok? ==> r.value.hasCtx && (r.value.unlocked <==> e.unlocked || resumes)
    ensures Wf(e) && r.Ok? ==> Wf(r.value)
  {
    match Ensure(e, host)
    case Err(err) => Err(err)
    case Ok(e1) => if !e1.unlocked && resumes then Ok(e1.(unlocked := true)) else Ok(e1)
  }

  /** `setMuted`: always record the flag; with a master node its gain becomes
      0 when muted and the volume otherwise. */
  function SetMuted(e: Engine, m: bool): (r: Engine)
    ensures r.muted == m
    ensures r.hasMaster == e.hasMaster && r.scheduled == e.scheduled
    ensures r.hasMaster ==> r.gain == (if m then 0 else e.volume)
    ensures !r.hasMaster ==> r.gain == e.gain
    ensures Wf(e) ==> Wf(r)
  {
    var e1 := e.(muted := m);
    if e.hasMaster then e1.(gain := if m then 0 else e.volume) else e1
  }

  /** With a master node and a positive volume, the engine is silent exactly
      when muted, whatever happened before. */
  lemma MutedIffSilent(e: Engine, m: bool)
    requires Wf(e) && e.hasMaster
    ensures SetMuted(e, m).gain == 0 <==> m
  {
  }

  /** `blip(f, {peak})`: ensure the context, return without effect when there
      is no context or master, otherwise start one sound now. */
  function Blip(e: Engine, host: bool, now: int, freq: int, peak: int): (r: Result<(Engine, seq<Sound>), AudioError>)
    ensures Ensure(e, host).Err? <==> r.Err?
    ensures r.Ok? && !(r.value.0.hasCtx && r.value.0.hasMaster) ==> r.value.1 == []
    ensures r.Ok? && r.value.0.hasCtx && r.value.0.hasMaster ==> r.value.1 == [Sound(now, freq, peak)]
  {
    match Ensure(e, host)
    case Err(err) => Err(err)
    case Ok(e1) =>
      if !e1.hasCtx || !e1.hasMaster then Ok((e1, []))
      else Ok((e1, [Sound(now, freq, peak)]))
  }

  /** On a well-formed engine the no-context guard never fires: once the
      context exists, every blip sounds. */
  lemma BlipSoundsOnceEnsured(e: Engine, host: bool, now: int, freq: int, peak: int)
    requires Wf(e) && (e.hasCtx || host)
    ensures var r := Blip(e, host, now, freq, peak);
      r.Ok? && r.value.1 == [Sound(now, freq, peak)]
  {
  }

  /** `play("complete", next)`: each chime note is a blip fired `i * 180` ms
      later by its own timer, so a missing host fails inside those timers and
      the caller sees no sound rather than an error. */
  function PlayComplete(e: Engine, host: bool, now: int, next: Mode): (out: (Engine, seq<Sound>))
    ensures Wf(e) ==> Wf(out.0)
    ensures out.0.scheduled == e.scheduled
    ensures !e.hasCtx && !host ==> out.1 == []
    ensures Wf(e) && (e.hasCtx || host) ==>
      |out.1| == 7 &&
      forall i :: 0 <= i < 7 ==>
        out.1[i] == Sound(now + CompleteNotes(next)[i].delayMs, CompleteNotes(next)[i].freq, CompleteNotes(next)[i].peak)
  {
    match Ensure(e, host)
    case Err(_) => (e, [])
    case Ok(e1) =>
      if !e1.hasCtx || !e1.hasMaster then (e1, [])
      else
        var notes := CompleteNotes(next);
        (e1, seq(7, i requires 0 <= i < 7 => Sound(now + notes[i].delayMs, notes[i].freq, notes[i].peak)))
  }

  /** `cancelScheduled`: stop and forget every scheduled cue; on an empty
      list nothing happens. */
  function CancelScheduled(e: Engine): (r: Engine)
    ensures r.scheduled == []
    ensures r == e.(scheduled := [])
    ensures e.scheduled == [] ==> r == e
    ensures Wf(e) ==> Wf(r)
  {
    if |e.scheduled| > 0 then e.(scheduled := []) else e
  }

  /** The countdown ticks at `t0 - k` seconds for k = count down to 1, each
      kept only if it is still in the future of `now`. */
  function CountdownTicks(t0: int, now: int, count: nat): (r: seq<ScheduledCue>)
    ensures |r| <= count
    decreases count
  {
    if count == 0 then []
    else
      var start := t0 - count * TickSpacingMs;
      var rest := CountdownTicks(t0, now, count - 1);
      (if start > now then [TickAt(start)] else []) + rest
  }

  /** Every countdown cue is a tick in the future of `now`, a whole number
      of seconds (1 to `count`) before `t0`. */
  lemma {:induction false} TicksPlaced(t0: int, now: int, count: nat)
    ensures forall c :: c in CountdownTicks(t0, now, count) ==>
      c.TickAt? && now < c.at && t0 - count * TickSpacingMs <= c.at <= t0 - TickSpacingMs &&
      (t0 - c.at) % TickSpacingMs == 0
    decreases count
  {
    if count > 0 {
      TicksPlaced(t0, now, count - 1);
      var start := t0 - count * TickSpacingMs;
      assert (count - 1) * TickSpacingMs == count * TickSpacingMs - TickSpacingMs;
      assert (t0 - start) % TickSpacingMs == 0;
    }
  }

  /** No tick still in the future of `now` is dropped. */
  lemma {:induction false} TicksPresent(t0: int, now: int, count: nat)
    ensures forall k :: 1 <= k <= count && t0 - k * TickSpacingMs > now ==>
      TickAt(t0 - k * TickSpacingMs) in CountdownTicks(t0, now, count)
    decreases count
  {
    if count > 0 {
      TicksPresent(t0, now, count - 1);
    }
  }

  /** The ticks come out in time order. */
  lemma {:induction false} TicksSorted(t0: int, now: int, count: nat)
    ensures SortedByTime(CountdownTicks(t0, now, count))
    decreases count
  {
    if count > 0 {
      TicksSorted(t0, now, count - 1);
      TicksPlaced(t0, now, count - 1);
      var start := t0 - count * TickSpacingMs;
      var rest := CountdownTicks(t0, now, count - 1);
      var r := CountdownTicks(t0, now, count);
      assert (count - 1) * TickSpacingMs == count * TickSpacingMs - TickSpacingMs;
      if start > now {
        forall i, j | 0 <= i < j < |r|
          ensures r[i].at < r[j].at
        {
          assert r[j] == rest[j - 1] && rest[j - 1] in rest;
          if i > 0 {
            assert r[i] == rest[i - 1];
          }
        }
      }
    }
  }

  /** The seven chime notes from `t0` on, 180 ms apart. */
  function ChimeCues(t0: int, next: Mode): (r: seq<ScheduledCue>)
    ensures |r| == 7
    ensures forall i :: 0 <= i < 7 ==>
      r[i] == NoteAt(t0 + i * NoteSpacingMs, i, CompleteNotes(next)[i].freq, CompleteNotes(next)[i].peak)
  {
    var notes := CompleteNotes(next);
    seq(7, i requires 0 <= i < 7 => NoteAt(t0 + i * NoteSpacingMs, i, notes[i].freq, notes[i].peak))
  }

  /** The deadline `scheduleCompleteIn` anchors the chime to. */
  function Deadline(now: int, delayMs: int): (t0: int)
    ensures t0 >= now
  {
    now + Max(0, delayMs)
  }

  predicate SortedByTime(r: seq<ScheduledCue>) {
    forall i, j :: 0 <= i < j < |r| ==> r[i].at < r[j].at
  }

  /** Ticks strictly after `now` and at least a second before `t0`; notes at
      or after `t0`. */
  predicate Placed(r: seq<ScheduledCue>, now: int, t0: int) {
    && (forall c :: c in r && c.TickAt? ==> now < c.at <= t0 - TickSpacingMs)
    && (forall c :: c in r && c.NoteAt? ==> t0 <= c.at)
  }

  /** Every tick `k` seconds before `t0` (k in 1..5) that is still in the
      future of `now` is present. */
  predicate TicksComplete(r: seq<ScheduledCue>, now: int, t0: int) {
    forall k :: 1 <= k <= TickCount && t0 - k * TickSpacingMs > now ==> TickAt(t0 - k * TickSpacingMs) in r
  }

  /** Everything `scheduleCompleteIn(delay, next)` places on the timeline:
      the surviving countdown ticks, then the chime anchored at the deadline
      `t0 = now + max(0, delay)`. */
  function CompletionCues(now: int, delayMs: int, next: Mode): (r: seq<ScheduledCue>)
    ensures 7 <= |r| <= TickCount + 7
    ensures SortedByTime(r)
    ensures Placed(r, now, Deadline(now, delayMs))
    ensures TicksComplete(r, now, Deadline(now, delayMs))
  {
    var t0 := Deadline(now, delayMs);
    var ticks := CountdownTicks(t0, now, TickCount);
    var notes := ChimeCues(t0, next);
    TicksPlaced(t0, now, TickCount);
    TicksPresent(t0, now, TickCount);
    TicksSorted(t0, now, TickCount);
    TicksThenNotes(t0, now, ticks, notes);
    ticks + notes
  }

  /** Ticks that all end a second before `t0`, followed by notes from `t0`
      on, form one list sorted by time that keeps every tick. */
  lemma TicksThenNotes(t0: int, now: int, ticks: seq<ScheduledCue>, notes: seq<ScheduledCue>)
    requires forall c :: c in ticks ==> c.TickAt? && now < c.at <= t0 - TickSpacingMs
    requires SortedByTime(ticks)
    requires forall i :: 0 <= i < |notes| ==> notes[i].NoteAt? && notes[i].at == t0 + i * NoteSpacingMs
    requires TicksComplete(ticks, now, t0)
    ensures SortedByTime(ticks + notes)
    ensures Placed(ticks + notes, now, t0)
    ensures TicksComplete(ticks + notes, now, t0)
  {
    var r := ticks + notes;
    forall i, j | 0 <= i < j < |r|
      ensures r[i].at < r[j].at
    {
      if j < |ticks| {
        assert r[i] == ticks[i] && r[j] == ticks[j];
      } else if i < |ticks| {
        assert r[i] in ticks;
        assert r[j] == notes[j - |ticks|];
      } else {
        assert r[i] == notes[i - |ticks|] && r[j] == notes[j - |ticks|];
      }
    }
    forall c | c in r && c.NoteAt?
      ensures t0 <= c.at
    {
      if c !in ticks {
        var k :| 0 <= k < |notes| && notes[k] == c;
      }
    }
  }

  /** Whatever the delay, the schedule holds exactly the seven chime notes. */
  lemma CompletionHasSevenNotes(now: int, delayMs: int, next: Mode)
    ensures |NotesOf(CompletionCues(now, delayMs, next))| == 7
  {
    var t0 := Deadline(now, delayMs);
    var ticks := CountdownTicks(t0, now, TickCount);
    var notes := ChimeCues(t0, next);
    NotesOfAppend(ticks, notes);
    assert NotesOf(ticks) == [] by {
      TicksPlaced(t0, now, TickCount);
      NotesOfTicks(ticks);
    }
    assert NotesOf(notes) == notes by {
      NotesOfNotes(notes);
    }
  }

  /** A deadline more than five seconds away gets all five ticks. */
  lemma FarDeadlineGetsFiveTicks(now: int, delayMs: int, next: Mode)
    requires delayMs > TickCount * TickSpacingMs
    ensures |CompletionCues(now, delayMs, next)| == TickCount + 7
  {
    var t0 := Deadline(now, delayMs);
    AllTicksKept(t0, now, TickCount);
  }

  /** A deadline at most one second away gets no tick at all. */
  lemma NearDeadlineGetsNoTicks(now: int, delayMs: int, next: Mode)
    requires delayMs <= TickSpacingMs
    ensures |CompletionCues(now, delayMs, next)| == 7
  {
    var t0 := Deadline(now, delayMs);
  }

  /** When even the earliest tick is in the future, every tick is kept. */
  lemma {:induction false} AllTicksKept(t0: int, now: int, count: nat)
    requires t0 - count * TickSpacingMs > now
    ensures |CountdownTicks(t0, now, count)| == count
    decreases count
  {
    if count > 0 {
      assert (count - 1) * TickSpacingMs == count * TickSpacingMs - TickSpacingMs;
      AllTicksKept(t0, now, count - 1);
      assert CountdownTicks(t0, now, count)
        == [TickAt(t0 - count * TickSpacingMs)] + CountdownTicks(t0, now, count - 1);
    }
  }

  /** The chime notes of a cue list, in order. */
  function NotesOf(cues: seq<ScheduledCue>): seq<ScheduledCue>
  {
    if |cues| == 0 then []
    else (if cues[0].NoteAt? then [cues[0]] else []) + NotesOf(cues[1..])
  }

  lemma {:induction false} NotesOfAppend(a: seq<ScheduledCue>, b: seq<ScheduledCue>)
    ensures NotesOf(a + b) == NotesOf(a) + NotesOf(b)
  {
    if |a| > 0 {
      assert (a + b)[1..] == a[1..] + b;
      NotesOfAppend(a[1..], b);
    } else {
      assert a + b == b;
    }
  }

  lemma {:induction false} NotesOfTicks(a: seq<ScheduledCue>)
    requires forall c :: c in a ==> c.TickAt?
    ensures NotesOf(a) == []
  {
    if |a| > 0 {
      assert a[0] in a;
      NotesOfTicks(a[1..]);
    }
  }

  lemma {:induction false} NotesOfNotes(a: seq<ScheduledCue>)
    requires forall i :: 0 <= i < |a| ==> a[i].NoteAt?
    ensures NotesOf(a) == a
  {
    if |a| > 0 {
      NotesOfNotes(a[1..]);
    }
  }

  /** `scheduleCompleteIn(delay, next)`: ensure the context; with no context
      or master return without effect; otherwise cancel every earlier cue,
      remember `next` for the fallback chime, and schedule the new cues. */
  function ScheduleCompleteIn(e: Engine, host: bool, now: int, delayMs: int, next: Mode): (r: Result<Engine, AudioError>)
    ensures Ensure(e, host).Err? <==> r.Err?
    ensures r.Ok? && !(r.value.hasCtx && r.value.hasMaster) ==> r == Ensure(e, host)
    ensures r.Ok? && r.value.hasCtx && r.value.hasMaster ==>
      r.value.scheduled == CompletionCues(now, delayMs, next) && r.value.nextMode == next
    ensures Wf(e) && r.Ok? ==> Wf(r.value)
  {
    match Ensure(e, host)
    case Err(err) => Err(err)
    case Ok(e1) => Ok(Arm(e1, now, delayMs, next))
  }

  /** The part of `scheduleCompleteIn` after `ensure`. */
  function Arm(e: Engine, now: int, delayMs: int, next: Mode): (r: Engine)
    ensures !(e.hasCtx && e.hasMaster) ==> r == e
    ensures e.hasCtx && e.hasMaster ==>
      r == e.(scheduled := CompletionCues(now, delayMs, next), nextMode := next)
    ensures Wf(e) ==> Wf(r)
  {
    if !e.hasCtx || !e.hasMaster then e
    else CancelScheduled(e).(nextMode := next, scheduled := CompletionCues(now, delayMs, next))
  }

  /** Re-arming fully supersedes earlier scheduling: the cues afterwards do
      not depend on what was scheduled before. */
  lemma ArmSupersedes(e1: Engine, e2: Engine, host: bool, now: int, delayMs: int, next: Mode)
    requires Wf(e1) && Wf(e2)
    requires e1.(scheduled := []) == e2.(scheduled := [])
    ensures ScheduleCompleteIn(e1, host, now, delayMs, next).Ok? ==>
      ScheduleCompleteIn(e1, host, now, delayMs, next) == ScheduleCompleteIn(e2, host, now, delayMs, next)
  {
    assert e1.hasCtx == e2.hasCtx && e1.hasMaster == e2.hasMaster;
    var r1 := ScheduleCompleteIn(e1, host, now, delayMs, next);
    var r2 := ScheduleCompleteIn(e2, host, now, delayMs, next);
    if r1.Ok? {
      var f1 := Ensure(e1, host).value;
      var f2 := Ensure(e2, host).value;
      assert f1.(scheduled := []) == f2.(scheduled := []);
      if f1.hasCtx && f1.hasMaster {
        assert r1.value == f1.(scheduled := CompletionCues(now, delayMs, next), nextMode := next);
        assert r2.value == f2.(scheduled := CompletionCues(now, delayMs, next), nextMode := next);
      }
    }
  }
}
