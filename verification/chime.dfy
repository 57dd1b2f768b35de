/** The seven-note completion chime of the sound engine: which frequencies,
    in which order, how loud, and how far apart. */
module Chime {
  import opened Modes

  /** The root frequency `a` in hertz. */
  const A: int := 660
  /** Spacing between chime notes: 180 ms. */
  const NoteSpacingMs: int := 180

  /** `[a, a * 1.25, a * 1.5, a * 2]`; with a = 660 every entry is a whole
      number of hertz. */
  function Base(): (b: seq<int>)
    ensures b == [660, 825, 990, 1320]
    ensures forall i, j :: 0 <= i < j < |b| ==> b[i] < b[j]
  {
    [A, A * 5 / 4, A * 3 / 2, A * 2]
  }

  function Reverse<T>(s: seq<T>): (r: seq<T>)
    ensures |r| == |s|
    ensures forall i :: 0 <= i < |s| ==> r[i] == s[|s| - 1 - i]
  {
    if |s| == 0 then [] else Reverse(s[1..]) + [s[0]]
  }

  /** `base.concat(base.slice(0, -1).reverse())`: up to 2a and back down. */
  function FocusToBreak(): seq<int> {
    Base() + Reverse(Base()[..3])
  }

  /** `base.slice().reverse().concat(base.slice(1))`: down to a and back up. */
  function BreakToFocus(): seq<int> {
    Reverse(Base()) + Base()[1..]
  }

  /** Note loudness in hundredths: `[0.5, 0.5, 0.5, 0.3, 0.3, 0.3, 0.15]`. */
  function Peaks(): seq<int> {
    [50, 50, 50, 30, 30, 30, 15]
  }

  function Abs(x: int): nat {
    if x < 0 then -x else x
  }

  /** The rising-then-falling order, note by note. */
  lemma FocusToBreakShape()
    ensures FocusToBreak() == [660, 825, 990, 1320, 990, 825, 660]
    ensures forall i :: 0 <= i < 7 ==> FocusToBreak()[i] == Base()[3 - Abs(3 - i)]
  {
  }

  /** The falling-then-rising order, note by note. */
  lemma BreakToFocusShape()
    ensures BreakToFocus() == [1320, 990, 825, 660, 825, 990, 1320]
    ensures forall i :: 0 <= i < 7 ==> BreakToFocus()[i] == Base()[Abs(3 - i)]
  {
  }

  /** Both orders read the same backwards. */
  lemma ChimesArePalindromes()
    ensures Reverse(FocusToBreak()) == FocusToBreak()
    ensures Reverse(BreakToFocus()) == BreakToFocus()
  {
    FocusToBreakMirrors();
    BreakToFocusMirrors();
  }

  lemma FocusToBreakMirrors()
    ensures Reverse(FocusToBreak()) == FocusToBreak()
  {
    FocusToBreakShape();
    MirrorOfSeven(FocusToBreak());
    ReverseOfMirror(FocusToBreak());
  }

  lemma BreakToFocusMirrors()
    ensures Reverse(BreakToFocus()) == BreakToFocus()
  {
    BreakToFocusShape();
    MirrorOfSeven(BreakToFocus());
    ReverseOfMirror(BreakToFocus());
  }

  /** Seven entries mirror around the middle once the three outer pairs match. */
  lemma MirrorOfSeven(s: seq<int>)
    requires |s| == 7 && s[0] == s[6] && s[1] == s[5] && s[2] == s[4]
    ensures forall i :: 0 <= i < |s| ==> s[i] == s[|s| - 1 - i]
  {
    forall i | 0 <= i < 7
      ensures s[i] == s[6 - i]
    {
      if i == 0 || i == 6 {
      } else if i == 1 || i == 5 {
      } else if i == 2 || i == 4 {
      }
    }
  }

  /** A sequence that mirrors itself around its middle is its own reverse. */
  lemma ReverseOfMirror<T>(s: seq<T>)
    requires forall i :: 0 <= i < |s| ==> s[i] == s[|s| - 1 - i]
    ensures Reverse(s) == s
  {
  }

  /** One order peaks at 2a in the middle, the other dips to a there. */
  lemma ChimeExtremes()
    ensures FocusToBreak()[3] == 2 * A && BreakToFocus()[3] == A
    ensures forall i :: 0 <= i < 7 && i != 3 ==> FocusToBreak()[i] < FocusToBreak()[3]
    ensures forall i :: 0 <= i < 7 && i != 3 ==> BreakToFocus()[i] > BreakToFocus()[3]
  {
    FocusToBreakShape();
    BreakToFocusShape();
  }

  /** One note of the chime: frequency, peak gain in hundredths, delay. */
  datatype Note = Note(freq: int, peak: int, delayMs: int)

  /** The frequencies for the mode about to start: the falling-rising order
      before focus, the rising-falling order before a break. */
  function Freqs(next: Mode): (r: seq<int>)
    ensures |r| == 7
    ensures r[0] == r[6] == (if next == Focus then 2 * A else A)
    ensures r[3] == (if next == Focus then A else 2 * A)
  {
    FocusToBreakShape();
    BreakToFocusShape();
    if next == Focus then BreakToFocus() else FocusToBreak()
  }

  /** `play("complete", nextMode)`: note i plays `freqs[i]` at `peaks[i]`
      after `i * 180` ms. */
  function CompleteNotes(next: Mode): (notes: seq<Note>)
    ensures |notes| == 7
    ensures forall i :: 0 <= i < 7 ==>
      notes[i].freq == Freqs(next)[i] && notes[i].peak == Peaks()[i] && notes[i].delayMs == i * NoteSpacingMs
  {
    FocusToBreakShape();
    BreakToFocusShape();
    seq(7, i requires 0 <= i < 7 => Note(Freqs(next)[i], Peaks()[i], i * NoteSpacingMs))
  }

  /** Delays strictly increase from zero; peaks never increase. */
  lemma CompleteNotesTiming(next: Mode)
    ensures var n := CompleteNotes(next);
      && n[0].delayMs == 0
      && (forall i, j :: 0 <= i < j < 7 ==> n[i].delayMs < n[j].delayMs)
      && (forall i, j :: 0 <= i < j < 7 ==> n[i].peak >= n[j].peak)
  {
    var n := CompleteNotes(next);
    var p := Peaks();
    assert forall i :: 0 <= i < 7 ==> n[i].delayMs == i * NoteSpacingMs && n[i].peak == p[i];
    assert forall i, j :: 0 <= i < j < 7 ==> p[i] >= p[j];
  }

  /** The chime announcing focus falls to a and rises again; the one
      announcing a break (the default) rises to 2a and falls again. */
  lemma ChimeDirections(next: Mode)
    ensures next == Focus ==> forall i :: 0 <= i < 7 ==> CompleteNotes(next)[i].freq == Base()[Abs(3 - i)]
    ensures next == Break ==> forall i :: 0 <= i < 7 ==> CompleteNotes(next)[i].freq == Base()[3 - Abs(3 - i)]
  {
    FocusToBreakShape();
    BreakToFocusShape();
  }
}
