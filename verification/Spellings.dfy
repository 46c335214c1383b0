/**
 The many RFC 3339 spellings of one instant: a civil time, a fraction and an
 offset, and how they all come to one canonical text.
 */
module Spellings {
  import opened Wrappers
  import opened Calendar
  import opened Decimals
  import opened Timestamps

  lemma {:induction false} LeadingDigitsOf(digits: string, rest: string)
    requires AllDigits(digits) && (rest == "" || !IsDigit(rest[0]))
    ensures LeadingDigits(digits + rest) == |digits|
  {
    if digits == "" {
      assert digits + rest == rest;
    } else {
      assert (digits + rest)[1..] == digits[1..] + rest;
      LeadingDigitsOf(digits[1..], rest);
    }
  }

  /** ".ddd" or nothing. */
  predicate IsFraction(frac: string) {
    frac == "" || (2 <= |frac| && frac[0] == '.' && AllDigits(frac[1..]))
  }

  function FractionNanoseconds(frac: string): int {
    if frac == "" then 0 else Nanoseconds(frac[1..])
  }

  lemma TailReads(frac: string, offset: string)
    requires IsFraction(frac) && ReadOffset(offset).Some?
    ensures ReadTail(frac + offset) == Some(Tail(FractionNanoseconds(frac), ReadOffset(offset).value))
  {
    if frac == "" {
      assert frac + offset == offset;
    } else {
      var digits := frac[1..];
      assert (frac + offset)[1..] == digits + offset;
      LeadingDigitsOf(digits, offset);
      assert (frac + offset)[|digits| + 1..] == offset;
      assert (digits + offset)[..|digits|] == digits;
    }
  }

  lemma PartsRead(s: string, c: Civil, tail: Tail)
    requires ReadCivil(s, 'T') == Some(c) && ReadTail(s[19..]) == Some(tail)
    ensures ReadRfc3339(s) == Some(Instant(SecondNumber(c) - tail.offset, tail.nanosecond))
  {
    hide ReadCivil, ReadTail, SecondNumber;
  }

  /** A civil time, a fraction and an offset, one after the other, are read as one instant. */
  lemma ReadsTogether(s: string, c: Civil, frac: string, offset: string, seconds: int)
    requires Nameable(c) && IsFraction(frac) && ReadOffset(offset) == Some(seconds)
    requires 19 <= |s| && s[..19] == CivilText(c, 'T') && s[19..] == frac + offset
    ensures ReadRfc3339(s) == Some(Instant(SecondNumber(c) - seconds, FractionNanoseconds(frac)))
  {
    hide ReadRfc3339, ReadOffset, CivilText, SecondNumber, FractionNanoseconds, IsFraction;
    CivilAtStart(s, c, 'T');
    TailReads(frac, offset);
    PartsRead(s, c, Tail(FractionNanoseconds(frac), seconds));
  }

  /** time-offset of RFC 3339 */
  function OffsetText(sign: char, hours: int, minutes: int): string {
    [sign] + Decimal(hours, 2) + ":" + Decimal(minutes, 2)
  }

  function OffsetSeconds(sign: char, hours: int, minutes: int): int {
    if sign == '+' then (hours * 60 + minutes) * 60 else -(hours * 60 + minutes) * 60
  }

  lemma OffsetTextReads(sign: char, hours: int, minutes: int)
    requires (sign == '+' || sign == '-') && 0 <= hours < 24 && 0 <= minutes < 60
    ensures ReadOffset(OffsetText(sign, hours, minutes)) == Some(OffsetSeconds(sign, hours, minutes))
  {
    hide Decimal;
    var h, m := Decimal(hours, 2), Decimal(minutes, 2);
    OffsetSlices(sign, h, m);
    Powers();
    ValueOfDecimal(hours, 2);
    ValueOfDecimal(minutes, 2);
  }

  lemma OffsetSlices(sign: char, h: string, m: string)
    requires |h| == 2 && |m| == 2
    ensures var s := [sign] + h + ":" + m;
            |s| == 6 && s[0] == sign && s[1..3] == h && s[3] == ':' && s[4..6] == m && s != "Z"
  {
  }

  // ------------------------------------------------------------------- one text

  /** The spelling of an instant at an offset: the civil time there, a fraction, and the offset. */
  function Spelled(second: int, frac: string, sign: char, hours: int, minutes: int): string {
    CivilText(CivilOf(second + OffsetSeconds(sign, hours, minutes)), 'T') + (frac + OffsetText(sign, hours, minutes))
  }

  predicate ValidOffset(sign: char, hours: int, minutes: int) {
    (sign == '+' || sign == '-') && 0 <= hours < 24 && 0 <= minutes < 60
  }

  /** From "-23:59" to "+23:59", "+00:00" and "-00:00" included. */
  lemma OffsetRange(hours: int, minutes: int)
    ensures ValidOffset('+', hours, minutes) <==> 0 <= hours <= 23 && 0 <= minutes <= 59
    ensures ValidOffset('-', hours, minutes) <==> ValidOffset('+', hours, minutes)
  {
  }

  lemma SpelledReads(second: int, frac: string, sign: char, hours: int, minutes: int)
    requires ValidOffset(sign, hours, minutes) && IsFraction(frac)
    requires InFourDigitYears(second + OffsetSeconds(sign, hours, minutes))
    ensures ReadRfc3339(Spelled(second, frac, sign, hours, minutes)) == Some(Instant(second, FractionNanoseconds(frac)))
  {
    hide ReadRfc3339, CivilText, CivilOf, OffsetText, OffsetSeconds, IsFraction, InFourDigitYears;
    var local := second + OffsetSeconds(sign, hours, minutes);
    FourDigitYears(local);
    OffsetTextReads(sign, hours, minutes);
    Halves(CivilText(CivilOf(local), 'T'), frac + OffsetText(sign, hours, minutes));
    ReadsTogether(Spelled(second, frac, sign, hours, minutes), CivilOf(local), frac,
                  OffsetText(sign, hours, minutes), OffsetSeconds(sign, hours, minutes));
  }

  /**
   Every spelling of an instant, at any offset, with any fraction, in either case
   of its letters, is stored as the same 20 characters.
   */
  lemma SpellingsCollapse(value: string, second: int, frac: string, sign: char, hours: int, minutes: int)
    requires ValidOffset(sign, hours, minutes) && IsFraction(frac)
    requires InFourDigitYears(second) && InFourDigitYears(second + OffsetSeconds(sign, hours, minutes))
    requires ToUpper(value) == Spelled(second, frac, sign, hours, minutes)
    ensures CanonicalTimestamp(value) == SecondText(second, 'T') + "Z"
  {
    hide ReadRfc3339, Spelled;
    SpelledReads(second, frac, sign, hours, minutes);
  }

  /** An instant whose spelling at an offset has a four-digit year but whose UTC year has not is kept as given. */
  lemma FarInstantsAreKept(value: string, second: int, frac: string, sign: char, hours: int, minutes: int)
    requires ValidOffset(sign, hours, minutes) && IsFraction(frac)
    requires !InFourDigitYears(second) && InFourDigitYears(second + OffsetSeconds(sign, hours, minutes))
    requires ToUpper(value) == Spelled(second, frac, sign, hours, minutes)
    ensures CanonicalTimestamp(value) == value
  {
    hide ReadRfc3339, Spelled;
    SpelledReads(second, frac, sign, hours, minutes);
  }
}
