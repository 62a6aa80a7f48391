/**
 * The two formatting helpers of a task card: the deadline countdown and
 * the Pomodoro clock face.
 *
 * The countdown works on the millisecond difference `deadline - now`,
 * which is an integer because both are `Date` instants; parsing the
 * deadline string into an instant is outside the model, so the deadline
 * arrives already parsed, `None` standing for a missing or empty one.
 */
module TaskCard {
  import opened Wrappers
  import opened Numbers

  const MsPerMinute: nat := 60000
  const MsPerHour: nat := 3600000
  const MsPerDay: nat := 86400000

  /** Whole days, hours and minutes left. */
  datatype Span = Span(days: nat, hours: nat, mins: nat)

  function Millis(s: Span): nat
  {
    s.days * MsPerDay + s.hours * MsPerHour + s.mins * MsPerMinute
  }

  /**
   * `Math.floor(diff / day)`, `Math.floor((diff % day) / hour)` and
   * `Math.floor((diff % hour) / minute)` for a non-negative `diff`.
   */
  function Decompose(diff: nat): (s: Span)
    ensures s.hours < 24 && s.mins < 60
    ensures Millis(s) <= diff < Millis(s) + MsPerMinute
    ensures s.days > 0 <==> diff >= MsPerDay
    ensures s.days == 0 && s.hours > 0 <==> MsPerHour <= diff < MsPerDay
  {
    var days := diff / MsPerDay;
    var hours := (diff % MsPerDay) / MsPerHour;
    var mins := (diff % MsPerHour) / MsPerMinute;
    Span(days, hours, mins)
  }

  /** Any split of `diff` into days, hours under 24 and minutes under 60 that is exact to the minute is `Decompose(diff)`. */
  lemma DecomposeUnique(diff: nat, s: Span)
    requires s.hours < 24 && s.mins < 60
    requires Millis(s) <= diff < Millis(s) + MsPerMinute
    ensures s == Decompose(diff)
  {
    assert Millis(s) == s.days * 86400000 + s.hours * 3600000 + s.mins * 60000;
    var inHour := s.mins * 60000 + (diff - Millis(s));
    var inDay := s.hours * 3600000 + inHour;
    assert diff / 86400000 == s.days && diff % 86400000 == inDay;
    assert inDay / 3600000 == s.hours;
    assert diff % 3600000 == inHour;
    assert inHour / 60000 == s.mins;
  }

  /** `r` opens with `n` as `String(n)` writes it, followed by the letter `unit`. */
  predicate Leads(r: string, n: nat, unit: char)
  {
    var k := |Decimal(n)|;
    k < |r| && Numeral(r[..k], n) && r[k] == unit
  }

  /**
   * After the leading unit letter at index `k`: a space, then `n` as
   * `String(n)` writes it, then the letter `unit`, which ends `r`.
   */
  predicate Follows(r: string, k: int, n: nat, unit: char)
  {
    0 <= k && k + 2 < |r| && r[k + 1] == ' ' && Numeral(r[k + 2..|r| - 1], n) && r[|r| - 1] == unit
  }

  lemma TwoUnitsPrinted(a: nat, unit: char, b: nat, last: char)
    ensures var r := Decimal(a) + [unit, ' '] + Decimal(b) + [last];
      Leads(r, a, unit) && Follows(r, |Decimal(a)|, b, last)
  {
    PiecesOfTwoUnits(Decimal(a), unit, Decimal(b), last);
    DecimalIsNumeral(a);
    DecimalIsNumeral(b);
  }

  lemma PiecesOfTwoUnits(x: string, unit: char, y: string, last: char)
    ensures var r := x + [unit, ' '] + y + [last];
      |r| == |x| + |y| + 3 && r[..|x|] == x && r[|x|] == unit && r[|x| + 1] == ' '
      && r[|x| + 2..|r| - 1] == y && r[|r| - 1] == last
  {
    var r := x + [unit, ' '] + y + [last];
    assert r[..|x|] == x;
    assert r[|x| + 2..|r| - 1] == y;
  }

  lemma OneUnitPrinted(a: nat, unit: char)
    ensures var r := Decimal(a) + [unit];
      Leads(r, a, unit) && |r| == |Decimal(a)| + 1
  {
    var r := Decimal(a) + [unit];
    assert r[..|Decimal(a)|] == Decimal(a);
    DecimalIsNumeral(a);
  }

  /**
   * The three formats, chosen by the largest unit that is not zero: that
   * unit's count and letter, then the next smaller unit's count and letter.
   */
  function Format(s: Span): (r: string)
    ensures s.days > 0 ==> Leads(r, s.days, 'd') && Follows(r, |Decimal(s.days)|, s.hours, 'h')
    ensures s.days == 0 && s.hours > 0 ==> Leads(r, s.hours, 'h') && Follows(r, |Decimal(s.hours)|, s.mins, 'm')
    ensures s.days == 0 && s.hours == 0 ==> Leads(r, s.mins, 'm') && |r| == |Decimal(s.mins)| + 1
  {
    TwoUnitsPrinted(s.days, 'd', s.hours, 'h');
    TwoUnitsPrinted(s.hours, 'h', s.mins, 'm');
    OneUnitPrinted(s.mins, 'm');
    if s.days > 0 then Decimal(s.days) + "d " + Decimal(s.hours) + "h"
    else if s.hours > 0 then Decimal(s.hours) + "h " + Decimal(s.mins) + "m"
    else Decimal(s.mins) + "m"
  }

  /** `getTimeLeft(deadline)`: `None` is the `null` the card shows nothing for. */
  function TimeLeft(deadline: Option<int>, now: int): (r: Option<string>)
    ensures deadline.None? <==> r.None?
    ensures deadline.Some? && deadline.value < now ==> r == Some("Overdue")
    ensures deadline.Some? && deadline.value >= now ==> r == Some(Format(Decompose(deadline.value - now)))
  {
    if deadline.None? then None
    else
      var diff := deadline.value - now;
      if diff < 0 then Some("Overdue")
      else Some(Format(Decompose(diff)))
  }

  /** The card shows "Overdue" exactly when the deadline lies strictly in the past. */
  lemma OverdueExactlyWhenPast(deadline: Option<int>, now: int)
    ensures TimeLeft(deadline, now) == Some("Overdue") <==> deadline.Some? && deadline.value < now
  {
    if deadline.Some? && deadline.value >= now {
      var f := Format(Decompose(deadline.value - now));
      assert f[|f| - 1] == 'h' || f[|f| - 1] == 'm';
      assert "Overdue"[6] == 'e';
    }
  }

  /** At the deadline itself the countdown reads `0m`, not "Overdue". */
  lemma ZeroLeftReadsZeroMinutes(now: int)
    ensures TimeLeft(Some(now), now) == Some("0m")
  {
    assert Decompose(0) == Span(0, 0, 0);
    assert DigitChar(0) == '0';
    assert Decimal(0) == "0";
    assert Format(Span(0, 0, 0)) == "0" + "m" == "0m";
    assert TimeLeft(Some(now), now) == Some(Format(Decompose(0)));
  }

  /**
   * The countdown string opens with the whole number of the unit chosen by
   * the size of the gap, followed by that unit.
   */
  lemma FormatFollowsGap(diff: nat)
    ensures diff >= MsPerDay ==>
      var r := Format(Decompose(diff));
      Leads(r, diff / MsPerDay, 'd') && Follows(r, |Decimal(diff / MsPerDay)|, (diff % MsPerDay) / MsPerHour, 'h')
    ensures MsPerHour <= diff < MsPerDay ==>
      var r := Format(Decompose(diff));
      Leads(r, diff / MsPerHour, 'h') && Follows(r, |Decimal(diff / MsPerHour)|, (diff % MsPerHour) / MsPerMinute, 'm')
    ensures diff < MsPerHour ==> Leads(Format(Decompose(diff)), diff / MsPerMinute, 'm')
  {
    if diff < MsPerDay {
      assert diff % MsPerDay == diff;
    }
    if diff < MsPerHour {
      assert diff % MsPerHour == diff;
    }
  }

  /** `String(s).padStart(2, '0')`. */
  function PadStart2(s: string): (r: string)
    ensures |s| >= 2 ==> r == s
    ensures |s| < 2 ==> r == seq(2 - |s|, _ => '0') + s
    decreases 2 - |s|
  {
    if |s| >= 2 then s else PadStart2("0" + s)
  }

  /** `formatPomodoroTime`: minutes, a colon, then seconds on two digits. */
  function PomodoroFace(t: nat): (r: string)
    ensures |r| >= 4 && r[|r| - 3] == ':'
    ensures IsDigits(r[..|r| - 3]) && IsDigits(r[|r| - 2..])
    ensures |r| == 4 || r[0] != '0'
    ensures Value(r[|r| - 2..]) < 60
    ensures 60 * Value(r[..|r| - 3]) + Value(r[|r| - 2..]) == t
  {
    var minutes := Decimal(t / 60);
    var padded := PadStart2(Decimal(t % 60));
    DecimalIsNumeral(t / 60);
    PaddedSeconds(t % 60);
    FaceOfPieces(minutes, padded, t / 60, t % 60);
    minutes + ":" + padded
  }

  /** Seconds below a minute, padded, are two digits that read back as the seconds. */
  lemma PaddedSeconds(sec: nat)
    requires sec < 60
    ensures var padded := PadStart2(Decimal(sec));
      |padded| == 2 && IsDigits(padded) && Value(padded) == sec
  {
    var digits := Decimal(sec);
    ValueOfDecimal(sec);
    if sec < 10 {
      ValueLeadingZero(digits);
      assert PadStart2(digits) == "0" + digits;
    } else {
      assert |digits| == |Decimal(sec / 10)| + 1 == 2;
    }
  }

  /** A numeral of `m`, a colon and two digits reading `sec` can be cut back into the two numbers. */
  lemma FaceOfPieces(minutes: string, padded: string, m: nat, sec: nat)
    requires Numeral(minutes, m)
    requires |padded| == 2 && IsDigits(padded) && Value(padded) == sec
    ensures var r := minutes + ":" + padded;
      |r| >= 4 && r[|r| - 3] == ':'
      && Numeral(r[..|r| - 3], m) && IsDigits(r[|r| - 2..]) && Value(r[|r| - 2..]) == sec
  {
    var r := minutes + ":" + padded;
    assert r[..|r| - 3] == minutes;
    assert r[|r| - 2..] == padded;
  }
}
