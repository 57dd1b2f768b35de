/** The two duration fields: keystroke filtering, blur normalisation and the
    minute counts the timer reads from them. */
module DurationInput {
  import opened Decimal
  import opened Wrappers

  const MinMinutes: nat := 1
  const MaxMinutes: nat := 600
  const DefaultFocusMinutes: nat := 30
  const DefaultBreakMinutes: nat := 5

  /** The least integer that `Number` reads as Infinity: 2^1024 - 2^970,
      halfway between the largest finite double and 2^1024 (ties round up). */
  const NumberOverflow: nat := 0xfffffffffffffc00000000000000000000000000000000000000000000000000000000000000000000000000000000000000000000000000000000000000000000000000000000000000000000000000000000000000000000000000000000000000000000000000000000000000000000000000000000000000000000000000

  /** The configured minutes of both phases, as the timer reads them. */
  datatype Durations = Durations(focusMin: int, breakMin: int) {
    predicate Valid() {
      focusMin >= 1 && breakMin >= 1
    }
  }

  function Clamp(v: int, lo: int, hi: int): (r: int)
    requires lo <= hi
    ensures lo <= r <= hi
    ensures lo <= v <= hi ==> r == v
    ensures v < lo ==> r == lo
    ensures v > hi ==> r == hi
  {
    if v < lo then lo else if v > hi then hi else v
  }

  /** `onlyDigits`: drop every character that is not an ASCII digit. */
  function OnlyDigits(s: string): (r: DigitString)
    ensures |r| <= |s|
    ensures IsDigits(s) ==> r == s
  {
    if |s| == 0 then ""
    else (if IsDigit(s[0]) then [s[0]] else "") + OnlyDigits(s[1..])
  }

  /** Filtering keeps every digit, as often as it occurs, and nothing else. */
  lemma {:induction false} OnlyDigitsKeepsDigits(s: string)
    ensures forall c :: IsDigit(c) ==> multiset(OnlyDigits(s))[c] == multiset(s)[c]
  {
    if |s| > 0 {
      OnlyDigitsKeepsDigits(s[1..]);
      assert s == [s[0]] + s[1..];
    }
  }

  /** Filtering keeps the digits in their original order: it distributes
      over concatenation. */
  lemma {:induction false} OnlyDigitsAppend(a: string, b: string)
    ensures OnlyDigits(a + b) == OnlyDigits(a) + OnlyDigits(b)
  {
    if |a| > 0 {
      assert (a + b)[1..] == a[1..] + b;
      OnlyDigitsAppend(a[1..], b);
    } else {
      assert a + b == b;
    }
  }

  /** `normalizeMinutes(raw, fallback)` on a digit-only field: a field too long
      for a finite `Number` gives the fallback, anything else its floor
      clamped to [1, 600]. */
  function NormalizeMinutes(raw: DigitString, fallback: nat): (r: string)
    ensures Canonical(r)
    ensures Value(raw) >= NumberOverflow ==> Value(r) == fallback
    ensures Value(raw) < NumberOverflow ==> Value(r) == Clamp(Value(raw), MinMinutes, MaxMinutes)
  {
    ValueOfNatToString(fallback);
    var v := Value(raw);
    if v >= NumberOverflow then NatToString(fallback)
    else
      ValueOfNatToString(Clamp(v, MinMinutes, MaxMinutes));
      NatToString(Clamp(v, MinMinutes, MaxMinutes))
  }

  /** The blur handler of both fields: a blank field becomes the default,
      anything else is normalised. */
  function NormalizeOnBlur(text: DigitString, default: nat): (r: string)
    requires MinMinutes <= default <= MaxMinutes
    ensures Canonical(r)
    ensures MinMinutes <= Value(r) <= MaxMinutes
    ensures text == "" ==> Value(r) == default
    ensures text != "" && Value(text) < NumberOverflow ==>
      Value(r) == Clamp(Value(text), MinMinutes, MaxMinutes)
  {
    if text == "" then (ValueOfNatToString(default); NatToString(default))
    else NormalizeMinutes(text, default)
  }

  /** A normalised field is left as it is by a second blur. */
  lemma NormalizeOnBlurIdempotent(text: DigitString, default: nat)
    requires MinMinutes <= default <= MaxMinutes
    ensures NormalizeOnBlur(NormalizeOnBlur(text, default), default) == NormalizeOnBlur(text, default)
  {
    var r := NormalizeOnBlur(text, default);
    NatToStringOfValue(r);
    assert Value(r) < NumberOverflow;
  }

  /** `parseInt(text, 10) || fallback` on a digit-only field: an empty field
      (NaN) or a zero value falls back. */
  function MinutesOf(text: DigitString, fallback: nat): (r: nat)
    ensures text == "" || Value(text) == 0 ==> r == fallback
    ensures text != "" && Value(text) != 0 ==> r == Value(text)
    ensures fallback >= 1 ==> r >= 1
  {
    if text == "" || Value(text) == 0 then fallback else Value(text)
  }

  /** The durations the timer reads from the two fields. */
  function DurationsOf(focusText: DigitString, breakText: DigitString): (d: Durations)
    ensures d.Valid()
  {
    Durations(MinutesOf(focusText, DefaultFocusMinutes), MinutesOf(breakText, DefaultBreakMinutes))
  }

  /** After a blur the field's minutes are exactly the normalised number. */
  lemma BlurThenRead(text: DigitString, default: nat)
    requires MinMinutes <= default <= MaxMinutes
    ensures var r := NormalizeOnBlur(text, default);
      IsDigits(r) && MinMinutes <= MinutesOf(r, default) <= MaxMinutes && MinutesOf(r, default) == Value(r)
  {
  }

  /** The initial field text: a stored value is normalised, a missing or
      empty one gives the default. */
  function LoadMinutesText(saved: Option<DigitString>, default: nat): (r: string)
    requires MinMinutes <= default <= MaxMinutes
    ensures Canonical(r) && MinMinutes <= Value(r) <= MaxMinutes
    ensures saved.None? || saved.value == "" ==> Value(r) == default
  {
    ValueOfNatToString(default);
    if saved.None? || saved.value == "" then NatToString(default)
    else NormalizeMinutes(saved.value, default)
  }

  /** The older blur handler: a blank field becomes the default text, anything
      else is clamped to [1, 600]; an overlong field reads as Infinity and so
      clamps to 600 instead of falling back. */
  function LegacyBlur(text: DigitString, defaultText: string): (r: string)
    ensures text == "" ==> r == defaultText
    ensures text != "" ==> Canonical(r) && Value(r) == Clamp(Value(text), MinMinutes, MaxMinutes)
  {
    if text == "" then defaultText
    else
      ValueOfNatToString(Clamp(Value(text), MinMinutes, MaxMinutes));
      NatToString(Clamp(Value(text), MinMinutes, MaxMinutes))
  }

  /** The two blur handlers disagree only on fields too long for a finite
      `Number`: the newer one falls back, the older one clamps to 600. */
  lemma BlurVariantsAgree(text: DigitString, default: nat)
    requires MinMinutes <= default <= MaxMinutes
    ensures Value(text) < NumberOverflow ==>
      NormalizeOnBlur(text, default) == LegacyBlur(text, NatToString(default))
    ensures Value(text) >= NumberOverflow ==>
      Value(NormalizeOnBlur(text, default)) == default && Value(LegacyBlur(text, NatToString(default))) == MaxMinutes
  {
    if text != "" && Value(text) < NumberOverflow {
      NatToStringOfValue(NormalizeOnBlur(text, default));
      NatToStringOfValue(LegacyBlur(text, NatToString(default)));
    }
  }
}
