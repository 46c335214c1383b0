/**
 update_history's timestamps: any RFC 3339 spelling of an instant is stored as
 one fixed-width text, so that comparing text is comparing instants.
 */
module Timestamps {
  import opened Wrappers
  import opened Calendar
  import opened Decimals
  import opened Layouts

  // -------------------------------------------------------------- writing a time

  /** full-date: "YYYY-MM-DD" */
  const DATE: Layout := [Slot(4, "-"), Slot(2, "-"), Slot(2, "")]
  /** partial-time without its fraction: "HH:MM:SS" */
  const CLOCK: Layout := [Slot(2, ":"), Slot(2, ":"), Slot(2, "")]

  lemma LayoutWidths()
    ensures Width(DATE) == 10 && Width(CLOCK) == 8
  {
    assert DATE[1..][1..] == [Slot(2, "")] && CLOCK[1..][1..] == [Slot(2, "")];
  }

  function DateText(d: Date): (s: string)
    ensures |s| == 10
  {
    SpellLength([d.year, d.month, d.day], DATE);
    LayoutWidths();
    Spell([d.year, d.month, d.day], DATE)
  }

  function ClockText(c: Civil): (s: string)
    ensures |s| == 8
  {
    SpellLength([c.hour, c.minute, c.second], CLOCK);
    LayoutWidths();
    Spell([c.hour, c.minute, c.second], CLOCK)
  }

  predicate Nameable(c: Civil) {
    ValidCivil(c) && 0 <= c.date.year <= 9999
  }

  /** "YYYY-MM-DD?HH:MM:SS" with the given separator. */
  function CivilText(c: Civil, sep: char): (s: string)
    ensures |s| == 19
  {
    DateText(c.date) + ([sep] + ClockText(c))
  }

  /** The second at which year 10000 begins. */
  const YEAR_10000: int := 3652425 * SECONDS_PER_DAY

  /** The second falls in one of the years four digits can name. */
  predicate InFourDigitYears(second: int) {
    0 <= second < YEAR_10000
  }

  lemma FourDigitYears(second: int)
    ensures InFourDigitYears(second) <==> Nameable(CivilOf(second))
  {
    hide CivilOf;
    BeforeYear(second, 0);
    BeforeYear(second, 10000);
    assert DaysBeforeYear(0) == 0 && DaysBeforeYear(10000) == 3652425;
  }

  lemma BeforeYear(second: int, year: int)
    ensures CivilOf(second).date.year < year <==> second < DaysBeforeYear(year) * SECONDS_PER_DAY
  {
    var start := Civil(Date(year, 1, 1), 0, 0, 0);
    YearStart(year);
    SecondsInOrder(CivilOf(second), start);
    BeforeNewYear(CivilOf(second), year);
  }

  lemma BeforeNewYear(c: Civil, year: int)
    requires ValidCivil(c)
    ensures CivilBefore(c, Civil(Date(year, 1, 1), 0, 0, 0)) <==> c.date.year < year
  {
  }

  function SecondText(second: int, sep: char): (s: string)
    ensures |s| == 19
  {
    CivilText(CivilOf(second), sep)
  }

  lemma Powers()
    ensures Power10(2) == 100 && Power10(3) == 1000 && Power10(4) == 10000
  {
  }

  lemma DateFits(d: Date)
    requires 0 <= d.year <= 9999 && 0 <= d.month < 100 && 0 <= d.day < 100
    ensures FitsLayout([d.year, d.month, d.day], DATE)
  {
    Powers();
    var ns := [d.year, d.month, d.day];
    assert DATE[1..][1..] == [Slot(2, "")] && ns[1..][1..] == [d.day];
    assert FitsLayout(ns[1..][1..], DATE[1..][1..]);
  }

  lemma ClockFits(c: Civil)
    requires 0 <= c.hour < 100 && 0 <= c.minute < 100 && 0 <= c.second < 100
    ensures FitsLayout([c.hour, c.minute, c.second], CLOCK)
  {
    Powers();
    var ns := [c.hour, c.minute, c.second];
    assert CLOCK[1..][1..] == [Slot(2, "")] && ns[1..][1..] == [c.second];
    assert FitsLayout(ns[1..][1..], CLOCK[1..][1..]);
  }

  lemma LexOfThree(a: int, b: int, c: int, x: int, y: int, z: int)
    ensures Lex([a, b, c], [x, y, z]) <==> a < x || (a == x && (b < y || (b == y && c < z)))
  {
    var ms, ns := [a, b, c], [x, y, z];
    assert ms[1..][1..] == [c] && ns[1..][1..] == [z];
    assert Lex(ms[1..][1..], ns[1..][1..]) <==> c < z;
  }

  lemma ClockTextsInOrder(a: Civil, b: Civil)
    requires ValidCivil(a) && ValidCivil(b)
    ensures Before(ClockText(a), ClockText(b))
       <==> (a.hour < b.hour
             || (a.hour == b.hour && (a.minute < b.minute || (a.minute == b.minute && a.second < b.second))))
  {
    ClockFits(a);
    ClockFits(b);
    SpellOrder([a.hour, a.minute, a.second], [b.hour, b.minute, b.second], CLOCK);
    LexOfThree(a.hour, a.minute, a.second, b.hour, b.minute, b.second);
  }

  lemma DateTextsInOrder(a: Date, b: Date)
    requires ValidDate(a) && 0 <= a.year <= 9999
    requires ValidDate(b) && 0 <= b.year <= 9999
    ensures Before(DateText(a), DateText(b)) <==> DateBefore(a, b)
  {
    DateFits(a);
    DateFits(b);
    SpellOrder([a.year, a.month, a.day], [b.year, b.month, b.day], DATE);
    LexOfThree(a.year, a.month, a.day, b.year, b.month, b.day);
  }

  lemma TextsTotal(a: string, b: string)
    requires |a| == |b|
    ensures a == b <==> !Before(a, b) && !Before(b, a)
  {
    if a != "" && a[0] == b[0] {
      TextsTotal(a[1..], b[1..]);
      assert a == [a[0]] + a[1..] && b == [b[0]] + b[1..];
    }
    if a == b { BeforeIrreflexive(a); }
  }

  lemma DateTextsDiffer(a: Date, b: Date)
    requires ValidDate(a) && 0 <= a.year <= 9999
    requires ValidDate(b) && 0 <= b.year <= 9999
    ensures DateText(a) == DateText(b) <==> a == b
  {
    DateTextsInOrder(a, b);
    DateTextsInOrder(b, a);
    TextsTotal(DateText(a), DateText(b));
  }

  /** Civil texts sort as the civil times they spell. */
  lemma CivilTextsInOrder(a: Civil, b: Civil, sep: char)
    requires Nameable(a) && Nameable(b)
    ensures Before(CivilText(a, sep), CivilText(b, sep)) <==> CivilBefore(a, b)
  {
    DateTextsInOrder(a.date, b.date);
    DateTextsDiffer(a.date, b.date);
    BeforeByHead(DateText(a.date), DateText(b.date), [sep] + ClockText(a), [sep] + ClockText(b));
    BeforeByHead([sep], [sep], ClockText(a), ClockText(b));
    BeforeIrreflexive([sep]);
    ClockTextsInOrder(a, b);
  }

  /** The texts of two seconds sort as the seconds themselves. */
  lemma SecondTextsInOrder(a: int, b: int, sep: char)
    requires InFourDigitYears(a) && InFourDigitYears(b)
    ensures Before(SecondText(a, sep), SecondText(b, sep)) <==> a < b
    ensures SecondText(a, sep) == SecondText(b, sep) <==> a == b
  {
    FourDigitYears(a);
    FourDigitYears(b);
    CivilTextsInOrder(CivilOf(a), CivilOf(b), sep);
    CivilTextsInOrder(CivilOf(b), CivilOf(a), sep);
    SecondsInOrder(CivilOf(a), CivilOf(b));
    SecondsInOrder(CivilOf(b), CivilOf(a));
    TextsTotal(SecondText(a, sep), SecondText(b, sep));
  }

  // -------------------------------------------------------------- reading a time

  /** An instant: a second of UTC, counted from 0000-01-01T00:00:00Z, and a fraction of it. */
  datatype Instant = Instant(second: int, nanosecond: int)

  predicate DigitsAt(s: string, from: nat, to: nat) {
    from <= to <= |s| && AllDigits(s[from..to])
  }

  /** A date, the separator and a time of day, valid or not, at the start of s. */
  predicate HasCivilShape(s: string, sep: char) {
    19 <= |s| && Scan(s, DATE).Some? && s[10] == sep && Scan(s[11..], CLOCK).Some?
  }

  function CivilFrom(date: seq<int>, clock: seq<int>): Civil
    requires |date| == |clock| == 3
  {
    Civil(Date(date[0], date[1], date[2]), clock[0], clock[1], clock[2])
  }

  /** full-date, a separator, and partial-time without its fraction, at the start of s. */
  function ReadCivil(s: string, sep: char): (r: Option<Civil>)
    ensures r.Some? ==> ValidCivil(r.value)
  {
    if HasCivilShape(s, sep) then
      var c := CivilFrom(Scan(s, DATE).value, Scan(s[11..], CLOCK).value);
      if ValidCivil(c) then Some(c) else None
    else None
  }

  /** How many digits s starts with. */
  function LeadingDigits(s: string): (n: nat)
    ensures n <= |s| && AllDigits(s[..n])
  {
    if s == "" || !IsDigit(s[0]) then 0
    else
      var n := 1 + LeadingDigits(s[1..]);
      assert s[..n] == [s[0]] + s[1..][..n - 1];
      n
  }

  /** Nanoseconds of a fraction: its first nine digits, missing ones being zeros. */
  function Nanoseconds(digits: string): int {
    Value((digits + "000000000")[..9])
  }

  /** time-offset in seconds: "Z", or a sign, an hour and a minute. */
  function ReadOffset(s: string): Option<int> {
    if s == "Z" then Some(0)
    else if |s| == 6 && (s[0] == '+' || s[0] == '-') && DigitsAt(s, 1, 3) && s[3] == ':' && DigitsAt(s, 4, 6)
            && Value(s[1..3]) < 24 && Value(s[4..6]) < 60 then
      var minutes := Value(s[1..3]) * 60 + Value(s[4..6]);
      Some(if s[0] == '+' then minutes * 60 else -minutes * 60)
    else None
  }

  /** What follows the civil time: an optional fraction and an offset. */
  datatype Tail = Tail(nanosecond: int, offset: int)

  function ReadTail(tail: string): Option<Tail> {
    var digits := if tail != "" && tail[0] == '.' then LeadingDigits(tail[1..]) else 0;
    match ReadOffset(if digits == 0 then tail else tail[digits + 1..])
    case None => None
    case Some(offset) => Some(Tail(if digits == 0 then 0 else Nanoseconds(tail[1..][..digits]), offset))
  }

  /** date-time of RFC 3339 section 5.6, without leap seconds. */
  function ReadRfc3339(s: string): Option<Instant> {
    match ReadCivil(s, 'T')
    case None => None
    case Some(c) =>
      match ReadTail(s[19..])
      case None => None
      case Some(tail) => Some(Instant(SecondNumber(c) - tail.offset, tail.nanosecond))
  }

  // ---------------------------------------------------------------- reading back

  lemma Halves(a: string, b: string)
    ensures (a + b)[..|a|] == a && (a + b)[|a|..] == b
  {
  }

  lemma CivilPieces(date: string, sep: char, clock: string, rest: string)
    requires |date| == 10 && |clock| == 8
    ensures var s := (date + ([sep] + clock)) + rest;
            s == date + s[10..] && s[10] == sep && s[11..] == clock + rest
  {
  }

  /** A written civil time reads back, whatever follows it. */
  lemma CivilReadsBack(c: Civil, sep: char, rest: string)
    requires Nameable(c)
    ensures ReadCivil(CivilText(c, sep) + rest, sep) == Some(c)
  {
    var s := CivilText(c, sep) + rest;
    CivilPieces(DateText(c.date), sep, ClockText(c), rest);
    DateFits(c.date);
    ClockFits(c);
    ScanOfSpell([c.date.year, c.date.month, c.date.day], DATE, s[10..]);
    ScanOfSpell([c.hour, c.minute, c.second], CLOCK, rest);
  }

  lemma CivilAtStart(s: string, c: Civil, sep: char)
    requires Nameable(c) && 19 <= |s| && s[..19] == CivilText(c, sep)
    ensures ReadCivil(s, sep) == Some(c)
  {
    CivilReadsBack(c, sep, s[19..]);
    assert s == s[..19] + s[19..];
  }

  lemma YearFits(ns: seq<int>)
    requires FitsLayout(ns, DATE)
    ensures 0 <= ns[0] <= 9999
  {
    Powers();
  }

  lemma CivilSlices(s: string)
    requires 19 <= |s|
    ensures s[..19] == s[..10] + ([s[10]] + s[11..][..8])
  {
  }

  /** A civil time that was read is written as it was read. */
  lemma CivilRewritten(s: string, sep: char)
    requires ReadCivil(s, sep).Some?
    ensures Nameable(ReadCivil(s, sep).value)
    ensures CivilText(ReadCivil(s, sep).value, sep) == s[..19]
  {
    var date, clock := Scan(s, DATE).value, Scan(s[11..], CLOCK).value;
    LayoutWidths();
    SpellOfScan(s, DATE);
    SpellOfScan(s[11..], CLOCK);
    YearFits(date);
    assert date == [date[0], date[1], date[2]] && clock == [clock[0], clock[1], clock[2]];
    CivilSlices(s);
  }

  // -------------------------------------------------------------- canonical form

  /** Upper case on ASCII letters: no other character upper-cases into one RFC 3339 uses. */
  function Upper(c: char): char {
    if 'a' <= c <= 'z' then 'A' + (c - 'a') else c
  }

  lemma UpperLetters()
    ensures Upper('a') == 'A' && Upper('t') == 'T' && Upper('z') == 'Z' && Upper('Z') == 'Z' && Upper('5') == '5'
  {
  }

  function ToUpper(s: string): (r: string)
    ensures |r| == |s| && forall i :: 0 <= i < |s| ==> r[i] == Upper(s[i])
  {
    seq(|s|, i requires 0 <= i < |s| => Upper(s[i]))
  }

  /** The instant a stored value names, if it can be interpreted. */
  function InstantOf(value: string): Option<Instant> {
    ReadRfc3339(ToUpper(value))
  }

  /** The value names an instant whose UTC year four digits can spell. */
  predicate Storable(value: string) {
    InstantOf(value).Some? && InFourDigitYears(InstantOf(value).value.second)
  }

  function CanonicalTimestamp(value: string): string {
    if Storable(value) then SecondText(InstantOf(value).value.second, 'T') + "Z" else value
  }

  /** The one stored spelling: a real date and time, whole seconds, "Z". */
  predicate IsCanonical(s: string) {
    |s| == 20 && s[19] == 'Z' && ReadCivil(s, 'T').Some?
  }

  lemma NotInCivilText(c: Civil, sep: char, x: char)
    requires !IsDigit(x) && x != '-' && x != ':' && x != sep
    ensures x !in CivilText(c, sep)
  {
    NeverWritten(x, [c.date.year, c.date.month, c.date.day], DATE);
    NeverWritten(x, [c.hour, c.minute, c.second], CLOCK);
  }

  lemma CanonicalIsUpper(s: string)
    requires IsCanonical(s)
    ensures ToUpper(s) == s
  {
    hide ReadCivil, CivilText;
    var c := ReadCivil(s, 'T').value;
    CivilRewritten(s, 'T');
    forall i | 0 <= i < 19 ensures Upper(s[i]) == s[i] {
      assert s[i] == s[..19][i];
      if 'a' <= s[i] <= 'z' { NotInCivilText(c, 'T', s[i]); }
    }
  }

  /** A canonical value names the whole second it spells. */
  lemma CanonicalMeaning(s: string)
    requires IsCanonical(s)
    ensures InstantOf(s) == Some(Instant(SecondNumber(ReadCivil(s, 'T').value), 0))
  {
    CanonicalIsUpper(s);
    assert s[19..] == "Z";
  }

  lemma WrittenIsCanonical(second: int)
    requires InFourDigitYears(second)
    ensures IsCanonical(SecondText(second, 'T') + "Z")
    ensures InstantOf(SecondText(second, 'T') + "Z") == Some(Instant(second, 0))
  {
    FourDigitYears(second);
    CivilReadsBack(CivilOf(second), 'T', "Z");
    CanonicalMeaning(SecondText(second, 'T') + "Z");
  }

  /** A canonical value is what its own instant is written as. */
  lemma CanonicalIsWritten(s: string)
    requires IsCanonical(s)
    ensures Storable(s) && SecondText(InstantOf(s).value.second, 'T') + "Z" == s
  {
    hide ReadCivil, CivilText, CivilOf, SecondNumber, InFourDigitYears;
    var c := ReadCivil(s, 'T').value;
    CanonicalMeaning(s);
    CivilRewritten(s, 'T');
    CivilOfSecondNumber(c);
    FourDigitYears(SecondNumber(c));
    assert SecondText(SecondNumber(c), 'T') == s[..19];
    assert s == s[..19] + "Z";
  }

  /** A storable value becomes the 20-character text of its instant, floored to the second. */
  lemma CanonicalKeepsInstant(value: string)
    requires Storable(value)
    ensures IsCanonical(CanonicalTimestamp(value)) && |CanonicalTimestamp(value)| == 20
    ensures InstantOf(CanonicalTimestamp(value)) == Some(Instant(InstantOf(value).value.second, 0))
  {
    WrittenIsCanonical(InstantOf(value).value.second);
  }

  /** Text order of stored values is instant order, whatever offsets they came in with. */
  lemma CanonicalOrder(a: string, b: string)
    requires Storable(a) && Storable(b)
    ensures Before(CanonicalTimestamp(a), CanonicalTimestamp(b))
       <==> InstantOf(a).value.second < InstantOf(b).value.second
    ensures CanonicalTimestamp(a) == CanonicalTimestamp(b)
       <==> InstantOf(a).value.second == InstantOf(b).value.second
  {
    var m, n := InstantOf(a).value.second, InstantOf(b).value.second;
    SecondTextsInOrder(m, n, 'T');
    BeforeByHead(SecondText(m, 'T'), SecondText(n, 'T'), "Z", "Z");
    BeforeIrreflexive("Z");
    assert (SecondText(m, 'T') + "Z")[..19] == SecondText(m, 'T');
    assert (SecondText(n, 'T') + "Z")[..19] == SecondText(n, 'T');
  }

  /** The values canonicalisation leaves alone: those it cannot store, and its own output. */
  lemma CanonicalFixedPoints(value: string)
    ensures CanonicalTimestamp(value) == value <==> !Storable(value) || IsCanonical(value)
  {
    if IsCanonical(value) {
      CanonicalIsWritten(value);
    } else if Storable(value) {
      CanonicalKeepsInstant(value);
    }
  }

  /** Over every string at all. */
  lemma CanonicalIdempotent(value: string)
    ensures CanonicalTimestamp(CanonicalTimestamp(value)) == CanonicalTimestamp(value)
  {
    if Storable(value) {
      CanonicalKeepsInstant(value);
      CanonicalFixedPoints(CanonicalTimestamp(value));
    }
  }
}
