/** Committed snapshot names, `xdrive-backup-YYYYMMDDTHHMMSSZ`, and why sorting them as
    text sorts them by time. */
module SnapshotNames {
  import opened Listing

  const PREFIX := "xdrive-backup-"

  predicate SafeName(name: string) {
    forall i :: 0 <= i < |name| ==>
      var c := name[i];
      'a' <= c <= 'z' || 'A' <= c <= 'Z' || '0' <= c <= '9' || c == '-' || c == '_'
  }

  predicate Digits(s: string) {
    forall i :: 0 <= i < |s| ==> '0' <= s[i] <= '9'
  }

  function Value(s: string): (v: nat)
    requires Digits(s)
  {
    if s == [] then 0 else Value(s[..|s| - 1]) * 10 + (s[|s| - 1] as int - '0' as int)
  }

  predicate Leap(year: nat) {
    year % 4 == 0 && (year % 100 != 0 || year % 400 == 0)
  }

  function YearDays(year: nat): nat {
    if Leap(year) then 366 else 365
  }

  function MonthDays(year: nat, month: nat): nat {
    match month
    case 2 => if Leap(year) then 29 else 28
    case 4 => 30
    case 6 => 30
    case 9 => 30
    case 11 => 30
    case _ => 31
  }

  datatype Stamp = Stamp(year: nat, month: nat, day: nat, hour: nat, minute: nat, second: nat) {
    predicate Valid() {
      && 1 <= month <= 12 && 1 <= day <= MonthDays(year, month)
      && hour < 24 && minute < 60 && second < 60
    }
  }

  /** The fixed-width layout `20060102T150405Z`. */
  predicate HasLayout(s: string) {
    |s| == 16 && s[8] == 'T' && s[15] == 'Z' &&
    forall i :: 0 <= i < 15 && i != 8 ==> '0' <= s[i] <= '9'
  }

  function ReadStamp(s: string): Stamp
    requires HasLayout(s)
  {
    Stamp(Value(s[..4]), Value(s[4..6]), Value(s[6..8]), Value(s[9..11]), Value(s[11..13]), Value(s[13..15]))
  }

  predicate Canonical(name: string) {
    && |name| >= |PREFIX| && name[..|PREFIX|] == PREFIX && SafeName(name)
    && HasLayout(name[|PREFIX|..]) && ReadStamp(name[|PREFIX|..]).Valid()
  }

  // ----- what a canonical name is, character by character -----

  function DigitAt(s: string, i: int): int {
    if 0 <= i < |s| then s[i] as int - '0' as int else 0
  }

  function TwoAt(s: string, i: int): int {
    10 * DigitAt(s, i) + DigitAt(s, i + 1)
  }

  lemma ValueOfTwo(s: string)
    requires |s| == 2 && Digits(s)
    ensures Value(s) == TwoAt(s, 0)
  {
    assert s[..1][..0] == [] && s[..1][0] == s[0];
    assert Value(s[..1]) == s[0] as int - '0' as int;
  }

  lemma ValueOfFour(s: string)
    requires |s| == 4 && Digits(s)
    ensures Value(s) == 100 * TwoAt(s, 0) + TwoAt(s, 2)
  {
    assert s[..3][..2] == s[..2] && s[..2][..1] == s[..1] && s[..1][..0] == [];
    assert Value(s[..1]) == s[0] as int - '0' as int;
    assert Value(s[..2]) == Value(s[..1]) * 10 + (s[1] as int - '0' as int);
    assert Value(s[..3]) == Value(s[..2]) * 10 + (s[2] as int - '0' as int);
  }

  ghost function LastDay(year: int, month: int): int {
    if month in {4, 6, 9, 11} then 30
    else if month == 2 then if year % 400 == 0 || (year % 4 == 0 && year % 100 != 0) then 29 else 28
    else 31
  }

  /** `xdrive-backup-YYYYMMDDTHHMMSSZ`, naming an instant that exists. */
  lemma CanonicalMeaning(name: string)
    ensures Canonical(name) <==>
      && |name| == 30 && name[..14] == "xdrive-backup-" && name[22] == 'T' && name[29] == 'Z'
      && (forall i :: 14 <= i < 29 && i != 22 ==> '0' <= name[i] <= '9')
      && 1 <= TwoAt(name, 18) <= 12
      && 1 <= TwoAt(name, 20) <= LastDay(100 * TwoAt(name, 14) + TwoAt(name, 16), TwoAt(name, 18))
      && TwoAt(name, 23) < 24 && TwoAt(name, 25) < 60 && TwoAt(name, 27) < 60
  {
    hide Value, SafeName, HasLayout, ReadStamp, TwoAt, MonthDays, LastDay;
    if |name| == 30 && name[..14] == PREFIX {
      LayoutMeaning(name);
      if HasLayout(name[14..]) {
        LayoutSafe(name);
        StampFields(name, name[14..]);
        DaysMeaning(ReadStamp(name[14..]));
      }
    } else if Canonical(name) {
      CanonicalLength(name);
    }
  }

  lemma CanonicalLength(name: string)
    requires Canonical(name)
    ensures |name| == 30 && name[..14] == PREFIX
  {
  }

  lemma DaysMeaning(t: Stamp)
    ensures MonthDays(t.year, t.month) == LastDay(t.year, t.month)
  {
  }

  lemma LayoutMeaning(name: string)
    requires |name| == 30
    ensures HasLayout(name[14..]) <==>
      name[22] == 'T' && name[29] == 'Z' && forall i :: 14 <= i < 29 && i != 22 ==> '0' <= name[i] <= '9'
  {
    var s := name[14..];
    assert forall i :: 0 <= i < 16 ==> s[i] == name[14 + i];
    if HasLayout(s) {
      forall i | 14 <= i < 29 && i != 22 ensures '0' <= name[i] <= '9' { assert s[i - 14] == name[i]; }
    }
  }

  lemma LayoutSafe(name: string)
    requires |name| == 30 && name[..14] == PREFIX && HasLayout(name[14..])
    ensures SafeName(name)
  {
    forall i | 0 <= i < |name|
      ensures
        'a' <= name[i] <= 'z' || 'A' <= name[i] <= 'Z' || '0' <= name[i] <= '9' || name[i] == '-' || name[i] == '_'
    {
      if i < 14 { assert name[i] == name[..14][i]; } else { assert name[i] == name[14..][i - 14]; }
    }
  }

  lemma StampFields(name: string, s: string)
    requires |name| == 30 && s == name[14..] && HasLayout(s)
    ensures ReadStamp(s) == Stamp(100 * TwoAt(name, 14) + TwoAt(name, 16), TwoAt(name, 18), TwoAt(name, 20),
      TwoAt(name, 23), TwoAt(name, 25), TwoAt(name, 27))
  {
    hide Value;
    assert forall i :: 0 <= i < 16 ==> s[i] == name[14 + i];
    ValueOfFour(s[..4]);
    ValueOfTwo(s[4..6]);
    ValueOfTwo(s[6..8]);
    ValueOfTwo(s[9..11]);
    ValueOfTwo(s[11..13]);
    ValueOfTwo(s[13..15]);
  }

  function DaysBeforeYear(year: nat): nat {
    if year == 0 then 0 else DaysBeforeYear(year - 1) + YearDays(year - 1)
  }

  function DaysBeforeMonth(year: nat, month: nat): nat {
    if month <= 1 then 0 else DaysBeforeMonth(year, month - 1) + MonthDays(year, month - 1)
  }

  /** Seconds since the start of year 0 (UTC has no leap seconds in this notation). */
  function Instant(t: Stamp): int {
    (DaysBeforeYear(t.year) + DaysBeforeMonth(t.year, t.month) + t.day) * 86400
      + t.hour * 3600 + t.minute * 60 + t.second
  }

  function SnapshotTime(name: string): int
    requires Canonical(name)
  {
    Instant(ReadStamp(name[|PREFIX|..]))
  }

  lemma {:induction false} YearsApart(y: nat, z: nat)
    requires y < z
    ensures DaysBeforeYear(y) + YearDays(y) <= DaysBeforeYear(z)
  {
    if y + 1 < z { YearsApart(y, z - 1); }
  }

  lemma {:induction false} MonthsApart(year: nat, m: nat, n: nat)
    requires 1 <= m < n <= 12
    ensures DaysBeforeMonth(year, m) + MonthDays(year, m) <= DaysBeforeMonth(year, n)
  {
    if m + 1 < n { MonthsApart(year, m, n - 1); }
  }

  lemma MonthFitsYear(year: nat, m: nat)
    requires 1 <= m <= 12
    ensures DaysBeforeMonth(year, m) + MonthDays(year, m) <= YearDays(year)
  {
    if m < 12 { MonthsApart(year, m, 12); }
    assert DaysBeforeMonth(year, 4) == DaysBeforeMonth(year, 2) + MonthDays(year, 2) + 31;
    assert DaysBeforeMonth(year, 6) == DaysBeforeMonth(year, 4) + 61;
    assert DaysBeforeMonth(year, 8) == DaysBeforeMonth(year, 6) + 61;
    assert DaysBeforeMonth(year, 10) == DaysBeforeMonth(year, 8) + 61;
    assert DaysBeforeMonth(year, 12) == DaysBeforeMonth(year, 10) + 61;
  }

  ghost predicate Earlier(s: Stamp, t: Stamp) {
    || s.year < t.year
    || (s.year == t.year && s.month < t.month)
    || (s.year == t.year && s.month == t.month && s.day < t.day)
    || (s.year == t.year && s.month == t.month && s.day == t.day &&
        s.hour * 3600 + s.minute * 60 + s.second < t.hour * 3600 + t.minute * 60 + t.second)
  }

  lemma EarlierIsSooner(s: Stamp, t: Stamp)
    requires s.Valid() && t.Valid() && Earlier(s, t)
    ensures Instant(s) < Instant(t)
  {
    if s.year < t.year {
      YearsApart(s.year, t.year);
      MonthFitsYear(s.year, s.month);
    } else if s.month < t.month {
      MonthsApart(s.year, s.month, t.month);
    }
  }

  lemma {:induction false} ValueBound(a: string)
    requires Digits(a)
    ensures a == [] ==> Value(a) == 0
    ensures |a| == 1 ==> Value(a) < 10
    ensures |a| == 2 ==> Value(a) < 100
  {
    if a != [] { ValueBound(a[..|a| - 1]); }
  }

  lemma {:induction false} LessSplit(a: string, b: string, k: nat)
    requires k <= |a| && k <= |b|
    ensures Less(a, b) <==> Less(a[..k], b[..k]) || (a[..k] == b[..k] && Less(a[k..], b[k..]))
  {
    if k == 0 {
      assert a[0..] == a && b[0..] == b;
    } else {
      LessSplit(a[1..], b[1..], k - 1);
      assert a[1..][..k - 1] == a[..k][1..] && b[1..][..k - 1] == b[..k][1..];
      assert a[1..][k - 1..] == a[k..] && b[1..][k - 1..] == b[k..];
      assert a[..k] == [a[0]] + a[..k][1..] && b[..k] == [b[0]] + b[..k][1..];
    }
  }

  /** Equally long digit strings compare as the numbers they spell. */
  lemma {:induction false} LessIsValue(a: string, b: string)
    requires |a| == |b| && Digits(a) && Digits(b)
    ensures Less(a, b) <==> Value(a) < Value(b)
    ensures a == b <==> Value(a) == Value(b)
  {
    if a != [] {
      var k := |a| - 1;
      LessIsValue(a[..k], b[..k]);
      LessSplit(a, b, k);
      assert a[k..] == [a[k]] && b[k..] == [b[k]];
      assert a == a[..k] + a[k..] && b == b[..k] + b[k..];
    }
  }

  /** The first field decides, or it ties and the rest decides. */
  lemma FieldOrder(a: string, b: string, k: nat)
    requires |a| == |b| && k <= |a| && Digits(a[..k]) && Digits(b[..k]) && Less(a, b)
    ensures Value(a[..k]) < Value(b[..k]) || (Value(a[..k]) == Value(b[..k]) && Less(a[k..], b[k..]))
  {
    LessSplit(a, b, k);
    LessIsValue(a[..k], b[..k]);
  }

  lemma ClockOrder(a: string, b: string)
    requires |a| == 7 && |b| == 7 && Digits(a[..6]) && Digits(b[..6]) && a[6] == b[6] == 'Z' && Less(a, b)
    requires Value(a[2..4]) < 60 && Value(b[2..4]) < 60 && Value(a[4..6]) < 60 && Value(b[4..6]) < 60
    ensures Value(a[..2]) * 3600 + Value(a[2..4]) * 60 + Value(a[4..6])
          < Value(b[..2]) * 3600 + Value(b[2..4]) * 60 + Value(b[4..6])
  {
    hide Less;
    FieldOrder(a, b, 2);
    if Value(a[..2]) == Value(b[..2]) {
      assert a[2..][..2] == a[2..4] && b[2..][..2] == b[2..4];
      FieldOrder(a[2..], b[2..], 2);
      if Value(a[2..4]) == Value(b[2..4]) {
        assert a[2..][2..] == a[4..] && b[2..][2..] == b[4..];
        assert a[4..][..2] == a[4..6] && b[4..][..2] == b[4..6];
        FieldOrder(a[4..], b[4..], 2);
        assert a[4..][2..] == "Z" && b[4..][2..] == "Z";
        LessTotal("Z", "Z");
      }
    }
  }

  lemma StampOrder(a: string, b: string)
    requires HasLayout(a) && HasLayout(b) && ReadStamp(a).Valid() && ReadStamp(b).Valid()
    requires Less(a, b)
    ensures Earlier(ReadStamp(a), ReadStamp(b))
  {
    hide Less;
    FieldOrder(a, b, 4);
    if Value(a[..4]) == Value(b[..4]) {
      assert a[4..][..2] == a[4..6] && b[4..][..2] == b[4..6];
      FieldOrder(a[4..], b[4..], 2);
      if Value(a[4..6]) == Value(b[4..6]) {
        assert a[4..][2..] == a[6..] && b[4..][2..] == b[6..];
        assert a[6..][..2] == a[6..8] && b[6..][..2] == b[6..8];
        FieldOrder(a[6..], b[6..], 2);
        if Value(a[6..8]) == Value(b[6..8]) {
          assert a[6..][2..] == a[8..] && b[6..][2..] == b[8..];
          ClockTail(a, b);
        }
      }
    }
  }

  lemma ClockTail(a: string, b: string)
    requires HasLayout(a) && HasLayout(b) && ReadStamp(a).Valid() && ReadStamp(b).Valid()
    requires Less(a[8..], b[8..])
    ensures var s, t := ReadStamp(a), ReadStamp(b);
            s.hour * 3600 + s.minute * 60 + s.second < t.hour * 3600 + t.minute * 60 + t.second
  {
    assert a[8..][0] == 'T' && b[8..][0] == 'T' && a[8..][1..] == a[9..] && b[8..][1..] == b[9..];
    var u, v := a[9..], b[9..];
    assert u[..2] == a[9..11] && u[2..4] == a[11..13] && u[4..6] == a[13..15];
    assert v[..2] == b[9..11] && v[2..4] == b[11..13] && v[4..6] == b[13..15];
    ClockOrder(u, v);
  }

  /** Sorting committed names as text is sorting them by time, so "the newest k" is the
      last k of the sorted listing. */
  lemma NameOrderIsTimeOrder(a: string, b: string)
    requires Canonical(a) && Canonical(b)
    ensures Less(a, b) <==> SnapshotTime(a) < SnapshotTime(b)
  {
    var k := |PREFIX|;
    LessSplit(a, b, k);
    LessSplit(b, a, k);
    LessTotal(a[..k], b[..k]);
    LessTotal(a, b);
    if Less(a, b) {
      StampOrder(a[k..], b[k..]);
      EarlierIsSooner(ReadStamp(a[k..]), ReadStamp(b[k..]));
    } else if Less(b, a) {
      StampOrder(b[k..], a[k..]);
      EarlierIsSooner(ReadStamp(b[k..]), ReadStamp(a[k..]));
    }
  }
}
