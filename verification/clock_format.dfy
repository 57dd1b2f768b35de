/** The `mm:ss` rendering of a remaining time (`fmt`). */
module ClockFormat {
  import opened Decimal

  /** `padStart(2, "0")` applied to a non-empty digit string. */
  function PadStart2(s: string): (r: string)
    requires Canonical(s)
    ensures IsDigits(r) && |r| == if |s| >= 2 then |s| else 2
    ensures Value(r) == Value(s)
  {
    if |s| >= 2 then s else (ValueLeadingZero(s); "0" + s)
  }

  /** The whole seconds `fmt` shows for an input of `x` seconds:
      negative values count as zero, fractions are floored. */
  function WholeSeconds(x: real): (n: nat)
    ensures x < 0.0 ==> n == 0
    ensures x >= 0.0 ==> n as real <= x < n as real + 1.0
  {
    if x.Floor < 0 then 0 else x.Floor
  }

  /** `fmt(x)`: minutes padded to at least two digits, a colon, and exactly
      two digits of seconds. */
  function Fmt(x: real): (r: string)
    ensures Renders(r, WholeSeconds(x))
  {
    FmtWhole(WholeSeconds(x))
  }

  /** `r` is a clock reading of `n` seconds: a digit-only minutes field, the
      only colon, and exactly two digits of seconds below 60, which read
      back to `n`. */
  predicate Renders(r: string, n: nat) {
    && |r| >= 5 && r[|r| - 3] == ':'
    && IsDigits(MinutesField(r)) && IsDigits(SecondsField(r))
    && |SecondsField(r)| == 2 && Value(SecondsField(r)) < 60
    && (forall i :: 0 <= i < |r| && r[i] == ':' ==> i == |r| - 3)
    && Value(MinutesField(r)) * 60 + Value(SecondsField(r)) == n
  }

  /** The rendering of `n` whole seconds. */
  function FmtWhole(n: nat): (r: string)
    ensures Renders(r, n)
  {
    var mm := PadStart2(NatToString(n / 60));
    var ss := PadStart2(NatToString(n % 60));
    FieldValues(n);
    Joined(mm, ss);
    mm + ":" + ss
  }

  /** Everything before the last three characters: the minutes. */
  function MinutesField(r: string): string
    requires |r| >= 3
  {
    r[..|r| - 3]
  }

  /** The last two characters: the seconds. */
  function SecondsField(r: string): string
    requires |r| >= 3
  {
    r[|r| - 2..]
  }

  /** Joining two digit strings with a colon gives back both fields, and
      that colon is the only one. */
  lemma Joined(mm: string, ss: string)
    requires IsDigits(mm) && |mm| >= 2 && IsDigits(ss) && |ss| == 2
    ensures var r := mm + ":" + ss;
      && |r| >= 5 && r[|r| - 3] == ':'
      && MinutesField(r) == mm && SecondsField(r) == ss
      && forall i :: 0 <= i < |r| && r[i] == ':' ==> i == |r| - 3
  {
    var r := mm + ":" + ss;
    assert MinutesField(r) == mm;
    assert SecondsField(r) == ss;
  }

  /** The two padded fields of `n` seconds read back to minutes and seconds. */
  lemma FieldValues(n: nat)
    ensures var ss := PadStart2(NatToString(n % 60));
      |ss| == 2 && Value(ss) < 60
    ensures Value(PadStart2(NatToString(n / 60))) * 60 + Value(PadStart2(NatToString(n % 60))) == n
  {
    var q, m := n / 60, n % 60;
    assert |NatToString(m)| <= 2;
    ValueOfNatToString(q);
    ValueOfNatToString(m);
    assert q * 60 + m == n;
  }

  /** The minutes field is two digits when under a hundred minutes and
      otherwise the plain spelling of the minute count, never truncated. */
  lemma FmtMinutesField(x: real)
    ensures var n := WholeSeconds(x);
      MinutesField(Fmt(x)) == if n / 60 < 10 then "0" + NatToString(n / 60) else NatToString(n / 60)
  {
    var n := WholeSeconds(x);
    var mm := NatToString(n / 60);
    var r := Fmt(x);
    assert r == PadStart2(mm) + ":" + PadStart2(NatToString(n % 60));
    assert MinutesField(r) == PadStart2(mm);
  }

  /** A negative input renders as zero. */
  lemma FmtNegative(x: real)
    requires x < 0.0
    ensures Fmt(x) == "00:00"
  {
    assert NatToString(0) == "0";
  }

  /** Fractions of a second are floored away, and nothing else is: two
      inputs render alike exactly when they floor to the same whole
      second. */
  lemma FmtDistinguishesSeconds(x: real, y: real)
    ensures Fmt(x) == Fmt(y) <==> WholeSeconds(x) == WholeSeconds(y)
  {
    var r := Fmt(x);
    assert Renders(r, WholeSeconds(x));
    if Fmt(y) == r {
      assert Renders(r, WholeSeconds(y));
    }
  }

  /** Ten hours keep all three minute digits. */
  lemma FmtTenHours()
    ensures Fmt(36000.0) == "600:00"
  {
    assert WholeSeconds(36000.0) == 36000;
    SixHundredMinutes();
  }

  /** 36000 whole seconds are six hundred minutes and no seconds. */
  lemma SixHundredMinutes()
    ensures FmtWhole(36000) == "600:00"
  {
    assert 36000 / 60 == 600 && 36000 % 60 == 0;
    assert NatToString(0) == "0";
    assert DigitChar(6) == '6' && DigitChar(0) == '0';
    assert NatToString(6) == "6";
    assert NatToString(60) == NatToString(6) + [DigitChar(0)];
    assert NatToString(600) == NatToString(60) + [DigitChar(0)];
    assert PadStart2("0") == "00" && PadStart2("600") == "600";
  }
}
