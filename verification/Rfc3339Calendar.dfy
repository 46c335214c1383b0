/**
 What a date-time text means, told by the text alone: which digits are a date
 (RFC 3339 section 5.7 and appendix C), which text is one second later, where the
 count of seconds is anchored, and what an offset and a fraction do.
 */
module Rfc3339Calendar {
  import opened Wrappers
  import opened Calendar
  import opened Decimals
  import opened Layouts
  import opened Spellings
  import opened Timestamps

  /** "YYYY-MM-DDTHH:MM:SS" */
  function Local(y: int, mo: int, d: int, h: int, mi: int, s: int): string {
    Decimal(y, 4) + "-" + Decimal(mo, 2) + "-" + Decimal(d, 2)
    + "T" + Decimal(h, 2) + ":" + Decimal(mi, 2) + ":" + Decimal(s, 2)
  }

  predicate TwoDigits(n: int) {
    0 <= n < 100
  }

  /** The last day of the month: section 5.7, with the leap years of appendix C. */
  function LastDay(y: int, mo: int): int {
    if mo == 2 then (if y % 4 == 0 && (y % 100 != 0 || y % 400 == 0) then 29 else 28)
    else if mo in {4, 6, 9, 11} then 30
    else 31
  }

  predicate IsDateTime(y: int, mo: int, d: int, h: int, mi: int, s: int) {
    0 <= y <= 9999 && 1 <= mo <= 12 && 1 <= d <= LastDay(y, mo) && 0 <= h < 24 && 0 <= mi < 60 && 0 <= s < 60
  }

  lemma LocalParts(y4: string, m2: string, d2: string, h2: string, i2: string, s2: string)
    ensures y4 + "-" + m2 + "-" + d2 + "T" + h2 + ":" + i2 + ":" + s2
         == (y4 + ("-" + (m2 + ("-" + (d2 + ""))))) + (['T'] + (h2 + (":" + (i2 + (":" + (s2 + ""))))))
  {
  }

  lemma SpellsThree(ns: seq<int>, layout: Layout)
    requires |ns| == |layout| == 3
    ensures Spell(ns, layout) == Decimal(ns[0], layout[0].width) + (layout[0].after
            + (Decimal(ns[1], layout[1].width) + (layout[1].after
            + (Decimal(ns[2], layout[2].width) + layout[2].after))))
  {
    assert ns[1..][1..] == [ns[2]] && layout[1..][1..] == [layout[2]];
    assert ns[1..][1..][1..] == [] && layout[1..][1..][1..] == [];
    assert Spell(ns[1..][1..], layout[1..][1..]) == Decimal(ns[2], layout[2].width) + (layout[2].after + "");
    assert layout[2].after + "" == layout[2].after;
  }

  lemma LocalIsCivilText(y: int, mo: int, d: int, h: int, mi: int, s: int)
    ensures Local(y, mo, d, h, mi, s) == CivilText(Civil(Date(y, mo, d), h, mi, s), 'T')
  {
    hide Decimal, Spell;
    SpellsThree([y, mo, d], DATE);
    SpellsThree([h, mi, s], CLOCK);
    LocalParts(Decimal(y, 4), Decimal(mo, 2), Decimal(d, 2), Decimal(h, 2), Decimal(mi, 2), Decimal(s, 2));
    assert Decimal(d, 2) + "" == Decimal(d, 2) && Decimal(s, 2) + "" == Decimal(s, 2);
  }

  /** Digits of any value are read as what they are, and are a time when that is a valid one. */
  lemma ReadsDigits(y: int, mo: int, d: int, h: int, mi: int, s: int, rest: string)
    requires 0 <= y <= 9999 && TwoDigits(mo) && TwoDigits(d) && TwoDigits(h) && TwoDigits(mi) && TwoDigits(s)
    ensures var c := Civil(Date(y, mo, d), h, mi, s);
            ReadCivil(Local(y, mo, d, h, mi, s) + rest, 'T') == if ValidCivil(c) then Some(c) else None
  {
    var c := Civil(Date(y, mo, d), h, mi, s);
    var text := CivilText(c, 'T') + rest;
    LocalIsCivilText(y, mo, d, h, mi, s);
    CivilPieces(DateText(c.date), 'T', ClockText(c), rest);
    DateFits(c.date);
    ClockFits(c);
    ScanOfSpell([y, mo, d], DATE, text[10..]);
    ScanOfSpell([h, mi, s], CLOCK, rest);
  }

  lemma ValidityIsTheTable(y: int, mo: int, d: int, h: int, mi: int, s: int)
    requires 0 <= y <= 9999 && TwoDigits(mo) && TwoDigits(d) && TwoDigits(h) && TwoDigits(mi) && TwoDigits(s)
    ensures ValidCivil(Civil(Date(y, mo, d), h, mi, s)) <==> IsDateTime(y, mo, d, h, mi, s)
  {
  }

  lemma NoLetterToRaise(s: string)
    requires forall i :: 0 <= i < |s| ==> !('a' <= s[i] <= 'z')
    ensures ToUpper(s) == s
  {
  }

  lemma LocalIsUpper(y: int, mo: int, d: int, h: int, mi: int, s: int, rest: string)
    requires forall i :: 0 <= i < |rest| ==> !('a' <= rest[i] <= 'z')
    ensures ToUpper(Local(y, mo, d, h, mi, s) + rest) == Local(y, mo, d, h, mi, s) + rest
  {
    hide Decimal, CivilText;
    LocalIsCivilText(y, mo, d, h, mi, s);
    var text := Local(y, mo, d, h, mi, s);
    forall i | 0 <= i < |text + rest| ensures !('a' <= (text + rest)[i] <= 'z') {
      if i < |text| && 'a' <= text[i] <= 'z' { NotInCivilText(Civil(Date(y, mo, d), h, mi, s), 'T', text[i]); }
    }
    NoLetterToRaise(text + rest);
  }

  /** Which digits are interpretable: for 29 February, the years divisible by 4, and by 400 if by 100. */
  lemma DigitsAreADate(y: int, mo: int, d: int, h: int, mi: int, s: int)
    requires 0 <= y <= 9999 && TwoDigits(mo) && TwoDigits(d) && TwoDigits(h) && TwoDigits(mi) && TwoDigits(s)
    ensures InstantOf(Local(y, mo, d, h, mi, s) + "Z").Some? <==> IsDateTime(y, mo, d, h, mi, s)
    ensures IsDateTime(y, mo, d, h, mi, s) ==> IsCanonical(Local(y, mo, d, h, mi, s) + "Z")
  {
    hide Decimal, ReadCivil, ValidCivil;
    LocalIsUpper(y, mo, d, h, mi, s, "Z");
    ReadsDigits(y, mo, d, h, mi, s, "Z");
    ValidityIsTheTable(y, mo, d, h, mi, s);
    LocalIsCivilText(y, mo, d, h, mi, s);
    Halves(Local(y, mo, d, h, mi, s), "Z");
  }

  /** The second that a date-time names. */
  lemma DateTimeNames(y: int, mo: int, d: int, h: int, mi: int, s: int)
    requires IsDateTime(y, mo, d, h, mi, s)
    ensures InstantOf(Local(y, mo, d, h, mi, s) + "Z")
         == Some(Instant(SecondNumber(Civil(Date(y, mo, d), h, mi, s)), 0))
  {
    hide Decimal, ReadCivil, ValidCivil, SecondNumber, CivilText;
    DigitsAreADate(y, mo, d, h, mi, s);
    ReadsDigits(y, mo, d, h, mi, s, "Z");
    ValidityIsTheTable(y, mo, d, h, mi, s);
    CanonicalMeaning(Local(y, mo, d, h, mi, s) + "Z");
  }

  /** The second text is one second after the first. */
  predicate Follows(first: string, next: string) {
    InstantOf(first).Some? && InstantOf(next).Some?
    && InstantOf(next).value.second == InstantOf(first).value.second + 1
  }

  lemma ClockGoesOn(y: int, mo: int, d: int, h: int, mi: int, s: int)
    requires IsDateTime(y, mo, d, h, mi, s)
    ensures s < 59 ==> Follows(Local(y, mo, d, h, mi, s) + "Z", Local(y, mo, d, h, mi, s + 1) + "Z")
    ensures mi < 59 ==> Follows(Local(y, mo, d, h, mi, 59) + "Z", Local(y, mo, d, h, mi + 1, 0) + "Z")
    ensures h < 23 ==> Follows(Local(y, mo, d, h, 59, 59) + "Z", Local(y, mo, d, h + 1, 0, 0) + "Z")
  {
    hide Local, InstantOf;
    DateTimeNames(y, mo, d, h, mi, s);
    if s < 59 { DateTimeNames(y, mo, d, h, mi, s + 1); }
    DateTimeNames(y, mo, d, h, mi, 59);
    if mi < 59 { DateTimeNames(y, mo, d, h, mi + 1, 0); }
    DateTimeNames(y, mo, d, h, 59, 59);
    if h < 23 { DateTimeNames(y, mo, d, h + 1, 0, 0); }
  }

  /** After a day's last second comes the next day; after a month's, the next month; after December's, the next year. */
  lemma DaysGoOn(y: int, mo: int, d: int)
    requires IsDateTime(y, mo, d, 0, 0, 0)
    ensures d < LastDay(y, mo) ==> Follows(Local(y, mo, d, 23, 59, 59) + "Z", Local(y, mo, d + 1, 0, 0, 0) + "Z")
    ensures mo < 12 ==> Follows(Local(y, mo, LastDay(y, mo), 23, 59, 59) + "Z", Local(y, mo + 1, 1, 0, 0, 0) + "Z")
    ensures y < 9999 ==> Follows(Local(y, 12, 31, 23, 59, 59) + "Z", Local(y + 1, 1, 1, 0, 0, 0) + "Z")
  {
    hide Local, InstantOf, Follows;
    if d < LastDay(y, mo) { NextDay(y, mo, d); }
    if mo < 12 { NextMonth(y, mo); }
    if y < 9999 { NextNewYear(y); }
  }

  lemma NextDay(y: int, mo: int, d: int)
    requires IsDateTime(y, mo, d, 0, 0, 0) && d < LastDay(y, mo)
    ensures Follows(Local(y, mo, d, 23, 59, 59) + "Z", Local(y, mo, d + 1, 0, 0, 0) + "Z")
  {
    hide Local, InstantOf, DaysBeforeYear, DaysBeforeMonth;
    DateTimeNames(y, mo, d, 23, 59, 59);
    DateTimeNames(y, mo, d + 1, 0, 0, 0);
  }

  lemma NextMonth(y: int, mo: int)
    requires 0 <= y <= 9999 && 1 <= mo < 12
    ensures Follows(Local(y, mo, LastDay(y, mo), 23, 59, 59) + "Z", Local(y, mo + 1, 1, 0, 0, 0) + "Z")
  {
    hide Local, InstantOf, DaysBeforeYear;
    DateTimeNames(y, mo, LastDay(y, mo), 23, 59, 59);
    DateTimeNames(y, mo + 1, 1, 0, 0, 0);
  }

  lemma NextNewYear(y: int)
    requires 0 <= y < 9999
    ensures Follows(Local(y, 12, 31, 23, 59, 59) + "Z", Local(y + 1, 1, 1, 0, 0, 0) + "Z")
  {
    hide Local, InstantOf, DaysBeforeYear;
    DateTimeNames(y, 12, 31, 23, 59, 59);
    DateTimeNames(y + 1, 1, 1, 0, 0, 0);
    NextYear(y);
    MonthStarts(y);
  }

  /** Where the count is anchored: the Unix epoch is second 719528 * 86400. */
  lemma Anchored()
    ensures InstantOf(Local(1970, 1, 1, 0, 0, 0) + "Z") == Some(Instant(719528 * 86400, 0))
  {
    hide Local, InstantOf;
    DateTimeNames(1970, 1, 1, 0, 0, 0);
    assert DaysBeforeYear(1970) == 719528 && DaysBeforeMonth(1970, 1) == 0;
  }

  function Offset(sign: char, oh: int, om: int): string {
    [sign] + Decimal(oh, 2) + ":" + Decimal(om, 2)
  }

  lemma TailHasNoLetter(frac: string, sign: char, oh: int, om: int)
    requires IsFraction(frac) && (sign == '+' || sign == '-')
    ensures forall i :: 0 <= i < |frac + Offset(sign, oh, om)| ==> !('a' <= (frac + Offset(sign, oh, om))[i] <= 'z')
  {
    forall i | 0 <= i < |frac| ensures !('a' <= frac[i] <= 'z') {
      if i > 0 { assert IsDigit(frac[1..][i - 1]); }
    }
  }

  /** "+hh:mm" is that much ahead of UTC, so its UTC time is that much earlier; "-hh:mm" the other way. */
  lemma OffsetsShift(y: int, mo: int, d: int, h: int, mi: int, s: int, frac: string, sign: char, oh: int, om: int,
                     utc: int)
    requires IsDateTime(y, mo, d, h, mi, s) && IsFraction(frac)
    requires (sign == '+' || sign == '-') && 0 <= oh < 24 && 0 <= om < 60
    requires InstantOf(Local(y, mo, d, h, mi, s) + "Z") == Some(Instant(utc, 0))
    ensures InstantOf(Local(y, mo, d, h, mi, s) + (frac + Offset(sign, oh, om)))
         == Some(Instant(if sign == '+' then utc - (oh * 3600 + om * 60) else utc + (oh * 3600 + om * 60),
                         FractionNanoseconds(frac)))
  {
    hide Decimal, ReadRfc3339, ReadCivil, ValidCivil, SecondNumber, CivilText, FractionNanoseconds;
    var c := Civil(Date(y, mo, d), h, mi, s);
    DateTimeNames(y, mo, d, h, mi, s);
    ValidityIsTheTable(y, mo, d, h, mi, s);
    TailHasNoLetter(frac, sign, oh, om);
    LocalIsUpper(y, mo, d, h, mi, s, frac + Offset(sign, oh, om));
    LocalIsCivilText(y, mo, d, h, mi, s);
    OffsetTextReads(sign, oh, om);
    Halves(Local(y, mo, d, h, mi, s), frac + Offset(sign, oh, om));
    ReadsTogether(Local(y, mo, d, h, mi, s) + (frac + Offset(sign, oh, om)), c, frac, Offset(sign, oh, om),
                  OffsetSeconds(sign, oh, om));
  }

  /** A fraction before "Z" changes nothing but the nanoseconds: it is cut off, never rounded. */
  lemma FractionIsCutOff(y: int, mo: int, d: int, h: int, mi: int, s: int, frac: string)
    requires IsDateTime(y, mo, d, h, mi, s) && IsFraction(frac)
    ensures CanonicalTimestamp(Local(y, mo, d, h, mi, s) + (frac + "Z")) == Local(y, mo, d, h, mi, s) + "Z"
  {
    hide Decimal, ReadRfc3339, ReadCivil, ValidCivil, SecondNumber, CivilText, FractionNanoseconds, Local, SecondText,
         InFourDigitYears;
    var c, utc := Civil(Date(y, mo, d), h, mi, s), Local(y, mo, d, h, mi, s) + "Z";
    DateTimeNames(y, mo, d, h, mi, s);
    ValidityIsTheTable(y, mo, d, h, mi, s);
    FractionHasNoLetter(frac);
    LocalIsUpper(y, mo, d, h, mi, s, frac + "Z");
    LocalIsCivilText(y, mo, d, h, mi, s);
    Halves(Local(y, mo, d, h, mi, s), frac + "Z");
    ReadsTogether(Local(y, mo, d, h, mi, s) + (frac + "Z"), c, frac, "Z", 0);
    DigitsAreADate(y, mo, d, h, mi, s);
    CanonicalIsWritten(utc);
  }

  lemma FractionHasNoLetter(frac: string)
    requires IsFraction(frac)
    ensures forall i :: 0 <= i < |frac + "Z"| ==> !('a' <= (frac + "Z")[i] <= 'z')
  {
    forall i | 0 <= i < |frac| ensures !('a' <= frac[i] <= 'z') {
      if i > 0 { assert IsDigit(frac[1..][i - 1]); }
    }
  }

  // -------------------------------------------------------------------- examples

  /** A value whose upper case is a local time with an offset is stored as the UTC time that many seconds away. */
  lemma StoredAs(value: string, y: int, mo: int, d: int, h: int, mi: int, s: int, frac: string,
                 sign: char, oh: int, om: int, y1: int, mo1: int, d1: int, h1: int, mi1: int, s1: int)
    requires IsDateTime(y, mo, d, h, mi, s) && IsFraction(frac) && IsDateTime(y1, mo1, d1, h1, mi1, s1)
    requires (sign == '+' || sign == '-') && 0 <= oh < 24 && 0 <= om < 60
    requires ToUpper(value) == Local(y, mo, d, h, mi, s) + (frac + Offset(sign, oh, om))
    requires SecondNumber(Civil(Date(y1, mo1, d1), h1, mi1, s1))
          == SecondNumber(Civil(Date(y, mo, d), h, mi, s)) - OffsetSeconds(sign, oh, om)
    ensures CanonicalTimestamp(value) == Local(y1, mo1, d1, h1, mi1, s1) + "Z"
  {
    hide Local, Offset, ReadRfc3339, SecondNumber, FractionNanoseconds, CivilText, SecondText, InFourDigitYears,
         ToUpper;
    var text, utc := Local(y, mo, d, h, mi, s) + (frac + Offset(sign, oh, om)), Local(y1, mo1, d1, h1, mi1, s1) + "Z";
    DateTimeNames(y, mo, d, h, mi, s);
    OffsetsShift(y, mo, d, h, mi, s, frac, sign, oh, om, SecondNumber(Civil(Date(y, mo, d), h, mi, s)));
    TailHasNoLetter(frac, sign, oh, om);
    LocalIsUpper(y, mo, d, h, mi, s, frac + Offset(sign, oh, om));
    assert InstantOf(value) == InstantOf(text);
    DateTimeNames(y1, mo1, d1, h1, mi1, s1);
    DigitsAreADate(y1, mo1, d1, h1, mi1, s1);
    CanonicalIsWritten(utc);
  }

  lemma DecimalStep(n: int, w: nat)
    ensures Decimal(n, w + 1) == Decimal(n / 10, w) + [Digit(n % 10)]
  {
  }

  lemma TwoDigitText(n: int)
    requires TwoDigits(n)
    ensures Decimal(n, 2) == [Digit(n / 10), Digit(n % 10)]
  {
    hide Decimal, Digit;
    DecimalStep(n, 1);
    DecimalStep(n / 10, 0);
    DecimalNothing(n / 10 / 10);
    assert n / 10 % 10 == n / 10;
  }

  lemma DecimalNothing(n: int)
    ensures Decimal(n, 0) == ""
  {
  }

  lemma FourDigitText(n: int)
    requires 0 <= n <= 9999
    ensures Decimal(n, 4) == [Digit(n / 1000), Digit(n / 100 % 10), Digit(n / 10 % 10), Digit(n % 10)]
  {
    hide Decimal, Digit;
    DecimalStep(n, 3);
    DecimalStep(n / 10, 2);
    assert n / 10 / 10 == n / 100 && n / 100 / 10 == n / 1000;
    TwoDigitText(n / 100);
  }

  /** The text, character by character. */
  lemma LocalDigits(y: int, mo: int, d: int, h: int, mi: int, s: int)
    requires 0 <= y <= 9999 && TwoDigits(mo) && TwoDigits(d) && TwoDigits(h) && TwoDigits(mi) && TwoDigits(s)
    ensures Local(y, mo, d, h, mi, s)
         == [Digit(y / 1000), Digit(y / 100 % 10), Digit(y / 10 % 10), Digit(y % 10),
             '-', Digit(mo / 10), Digit(mo % 10), '-', Digit(d / 10), Digit(d % 10),
             'T', Digit(h / 10), Digit(h % 10), ':', Digit(mi / 10), Digit(mi % 10),
             ':', Digit(s / 10), Digit(s % 10)]
  {
    hide Decimal, Digit;
    FourDigitText(y);
    TwoDigitText(mo);
    TwoDigitText(d);
    TwoDigitText(h);
    TwoDigitText(mi);
    TwoDigitText(s);
  }

  lemma OffsetDigits(sign: char, oh: int, om: int)
    requires TwoDigits(oh) && TwoDigits(om)
    ensures Offset(sign, oh, om) == [sign, Digit(oh / 10), Digit(oh % 10), ':', Digit(om / 10), Digit(om % 10)]
  {
    TwoDigitText(oh);
    TwoDigitText(om);
  }

  lemma SecondsOf(y: int, mo: int, d: int, h: int, mi: int, s: int)
    ensures SecondNumber(Civil(Date(y, mo, d), h, mi, s))
         == (DaysBeforeYear(y) + DaysBeforeMonth(y, mo) + d - 1) * 86400 + h * 3600 + mi * 60 + s
  {
  }

  lemma MarchSeconds()
    ensures SecondNumber(Civil(Date(2026, 2, 28), 22, 30, 0)) == SecondNumber(Civil(Date(2026, 3, 1), 0, 30, 0)) - 7200
    ensures SecondNumber(Civil(Date(2025, 3, 1), 0, 30, 0)) == SecondNumber(Civil(Date(2025, 2, 28), 23, 30, 0)) + 3600
    ensures SecondNumber(Civil(Date(2024, 2, 29), 10, 0, 0)) == SecondNumber(Civil(Date(2024, 2, 29), 12, 0, 0)) - 7200
  {
    MonthStarts(2026);
    MonthStarts(2025);
  }

  lemma MarchText()
    ensures Local(2026, 3, 1, 0, 30, 0) == "2026-03-01T00:30:00"
    ensures Local(2026, 2, 28, 22, 30, 0) == "2026-02-28T22:30:00"
  {
    hide Local;
    LocalDigits(2026, 3, 1, 0, 30, 0);
    LocalDigits(2026, 2, 28, 22, 30, 0);
  }

  lemma OffsetTexts()
    ensures "" + Offset('+', 2, 0) == "+02:00" && "" + Offset('-', 1, 0) == "-01:00"
  {
    hide Offset;
    OffsetDigits('+', 2, 0);
    OffsetDigits('-', 1, 0);
  }

  /** The source's own case: an offset normalised to the day before, in either letter case. */
  lemma MarchExample()
    ensures CanonicalTimestamp("2026-03-01T00:30:00+02:00") == "2026-02-28T22:30:00Z"
    ensures CanonicalTimestamp("2026-03-01t00:30:00+02:00") == "2026-02-28T22:30:00Z"
  {
    hide CanonicalTimestamp, Local, Offset, SecondNumber;
    MarchText();
    OffsetTexts();
    MarchSeconds();
    var upper := "2026-03-01T00:30:00+02:00";
    NoLetterToRaise(upper);
    assert ToUpper("2026-03-01t00:30:00+02:00") == upper;
    StoredAs(upper, 2026, 3, 1, 0, 30, 0, "", '+', 2, 0, 2026, 2, 28, 22, 30, 0);
    StoredAs("2026-03-01t00:30:00+02:00", 2026, 3, 1, 0, 30, 0, "", '+', 2, 0, 2026, 2, 28, 22, 30, 0);
  }

  lemma LeapTexts()
    ensures Local(2025, 2, 28, 23, 30, 0) == "2025-02-28T23:30:00"
    ensures Local(2025, 3, 1, 0, 30, 0) == "2025-03-01T00:30:00"
  {
    hide Local;
    LocalDigits(2025, 2, 28, 23, 30, 0);
    LocalDigits(2025, 3, 1, 0, 30, 0);
  }

  lemma LeapDayTexts()
    ensures Local(2024, 2, 29, 12, 0, 0) == "2024-02-29T12:00:00"
    ensures Local(2024, 2, 29, 10, 0, 0) == "2024-02-29T10:00:00"
  {
    hide Local;
    LocalDigits(2024, 2, 29, 12, 0, 0);
    LocalDigits(2024, 2, 29, 10, 0, 0);
  }

  /** February has 28 days in 2025 and 29 in 2024. */
  lemma LeapExamples()
    ensures CanonicalTimestamp("2025-02-28T23:30:00-01:00") == "2025-03-01T00:30:00Z"
    ensures CanonicalTimestamp("2024-02-29T12:00:00+02:00") == "2024-02-29T10:00:00Z"
    ensures !IsDateTime(1900, 2, 29, 0, 0, 0) && IsDateTime(2000, 2, 29, 0, 0, 0)
    ensures IsDateTime(2024, 2, 29, 0, 0, 0) && !IsDateTime(2100, 2, 29, 0, 0, 0)
  {
    hide CanonicalTimestamp, Local, Offset, SecondNumber;
    MarchSeconds();
    LeapTexts();
    LeapDayTexts();
    OffsetTexts();
    var shorter, leap := "2025-02-28T23:30:00-01:00", "2024-02-29T12:00:00+02:00";
    NoLetterToRaise(shorter);
    NoLetterToRaise(leap);
    StoredAs(shorter, 2025, 2, 28, 23, 30, 0, "", '-', 1, 0, 2025, 3, 1, 0, 30, 0);
    StoredAs(leap, 2024, 2, 29, 12, 0, 0, "", '+', 2, 0, 2024, 2, 29, 10, 0, 0);
  }
}
