/**
 The sessions columns: instants stored as fixed-width text with milliseconds,
 the expiry sweep that compares them as text, and the migration that rebuilds
 the driver's old spelling.
 */
module StoredInstants {
  import opened Wrappers
  import opened Calendar
  import opened Decimals
  import opened Layouts
  import opened Spellings
  import opened Text
  import opened Timestamps

  // -------------------------------------------------------------------- spelling

  predicate ValidInstant(t: Instant) {
    InFourDigitYears(t.second) && 0 <= t.nanosecond < 1000000000
  }

  function Milliseconds(t: Instant): int {
    t.second * 1000 + t.nanosecond / 1000000
  }

  /** A thousand to the second, and one for every whole million of nanoseconds. */
  lemma MillisecondsCount(t: Instant)
    ensures Milliseconds(Instant(t.second + 1, t.nanosecond)) == Milliseconds(t) + 1000
    ensures Milliseconds(Instant(t.second, t.nanosecond + 1000000)) == Milliseconds(t) + 1
    ensures Milliseconds(Instant(0, 0)) == 0 && Milliseconds(Instant(0, 999999)) == 0
  {
  }

  function MillisecondText(m: int): (s: string)
    ensures |s| == 4
  {
    "." + Decimal(m, 3)
  }

  /** "YYYY-MM-DDTHH:MM:SS.mmmZ" */
  function StoredInstant(t: Instant): (s: string)
    ensures |s| == 24
  {
    SecondText(t.second, 'T') + (MillisecondText(t.nanosecond / 1000000) + "Z")
  }

  /** Stored texts sort as their instants do, to the millisecond. */
  lemma StoredInstantOrder(a: Instant, b: Instant)
    requires ValidInstant(a) && ValidInstant(b)
    ensures Before(StoredInstant(a), StoredInstant(b)) <==> Milliseconds(a) < Milliseconds(b)
    ensures StoredInstant(a) == StoredInstant(b) <==> Milliseconds(a) == Milliseconds(b)
  {
    StoredBefore(a, b);
    StoredBefore(b, a);
    TextsTotal(StoredInstant(a), StoredInstant(b));
  }

  lemma MillisecondTextsInOrder(m: int, n: int)
    requires 0 <= m < 1000 && 0 <= n < 1000
    ensures Before(MillisecondText(m), MillisecondText(n)) <==> m < n
  {
    Powers();
    DecimalsInOrder(m, n, 3);
    BeforeByHead(".", ".", Decimal(m, 3), Decimal(n, 3));
    BeforeIrreflexive(".");
  }

  lemma StoredBefore(a: Instant, b: Instant)
    requires ValidInstant(a) && ValidInstant(b)
    ensures Before(StoredInstant(a), StoredInstant(b)) <==> Milliseconds(a) < Milliseconds(b)
  {
    var m, n := a.nanosecond / 1000000, b.nanosecond / 1000000;
    MillisecondTextsInOrder(m, n);
    BeforeByHead(MillisecondText(m), MillisecondText(n), "Z", "Z");
    BeforeIrreflexive("Z");
    SecondTextsInOrder(a.second, b.second, 'T');
    BeforeByHead(SecondText(a.second, 'T'), SecondText(b.second, 'T'), MillisecondText(m) + "Z",
                 MillisecondText(n) + "Z");
  }

  lemma ValueOfZero(digits: string)
    ensures Value(digits + "0") == 10 * Value(digits)
  {
    assert (digits + "0")[..|digits|] == digits;
  }

  lemma MillisecondFraction(m: int)
    requires 0 <= m < 1000
    ensures IsFraction(MillisecondText(m)) && FractionNanoseconds(MillisecondText(m)) == m * 1000000
  {
    var d := Decimal(m, 3);
    assert MillisecondText(m)[1..] == d;
    Powers();
    ValueOfDecimal(m, 3);
    ValueOfZero(d);
    ValueOfZero(d + "0");
    ValueOfZero(d + "0" + "0");
    ValueOfZero(d + "0" + "0" + "0");
    ValueOfZero(d + "0" + "0" + "0" + "0");
    ValueOfZero(d + "0" + "0" + "0" + "0" + "0");
    assert (d + "000000000")[..9] == d + "0" + "0" + "0" + "0" + "0" + "0";
  }

  lemma StoredHalves(t: Instant)
    ensures StoredInstant(t)[..19] == CivilText(CivilOf(t.second), 'T')
    ensures StoredInstant(t)[19..] == MillisecondText(t.nanosecond / 1000000) + "Z"
  {
    Halves(SecondText(t.second, 'T'), MillisecondText(t.nanosecond / 1000000) + "Z");
  }

  /** A stored text names its instant floored to the millisecond. */
  lemma StoredInstantReadsBack(t: Instant)
    requires ValidInstant(t)
    ensures ReadRfc3339(StoredInstant(t)) == Some(Instant(t.second, t.nanosecond / 1000000 * 1000000))
  {
    hide ReadRfc3339, CivilText, CivilOf, MillisecondText;
    var m := t.nanosecond / 1000000;
    MillisecondFraction(m);
    StoredHalves(t);
    FourDigitYears(t.second);
    ReadsTogether(StoredInstant(t), CivilOf(t.second), MillisecondText(m), "Z", 0);
  }

  // -------------------------------------------------------------------- sessions

  datatype Session = Session(userId: string, expiresAt: string, createdAt: string)

  ghost predicate IsStored(text: string) {
    exists t :: ValidInstant(t) && text == StoredInstant(t)
  }

  /** Every expires_at was written by StoredInstant. */
  ghost predicate Stamped(rows: map<string, Session>) {
    forall id :: id in rows ==> IsStored(rows[id].expiresAt)
  }

  /** The millisecond a stored expiry names. */
  function ExpiryOf(s: Session): int {
    MillisecondOf(s.expiresAt)
  }

  function MillisecondOf(text: string): int {
    match ReadRfc3339(text)
    case Some(t) => Milliseconds(t)
    case None => 0
  }

  /** A stored text against the text of an instant is a comparison of milliseconds. */
  lemma StoredTextComparesInstants(text: string, t: Instant)
    requires IsStored(text) && ValidInstant(t)
    ensures Before(text, StoredInstant(t)) <==> MillisecondOf(text) < Milliseconds(t)
  {
    hide StoredInstant, ReadRfc3339;
    var written :| ValidInstant(written) && text == StoredInstant(written);
    StoredInstantReadsBack(written);
    StoredInstantOrder(written, t);
  }

  lemma SweepComparesInstants(s: Session, now: Instant)
    requires IsStored(s.expiresAt) && ValidInstant(now)
    ensures Before(s.expiresAt, StoredInstant(now)) <==> ExpiryOf(s) < Milliseconds(now)
  {
    hide StoredInstant, ReadRfc3339, MillisecondOf, IsStored;
    StoredTextComparesInstants(s.expiresAt, now);
  }

  /** Nothing that is still valid is swept, and anything expired for a millisecond is. */
  lemma SweepIsTight(expires: Instant, now: Instant)
    requires ValidInstant(expires) && ValidInstant(now)
    ensures Before(StoredInstant(expires), StoredInstant(now))
        ==> expires.second < now.second || (expires.second == now.second && expires.nanosecond < now.nanosecond)
    ensures (now.second - expires.second) * 1000000000 + now.nanosecond - expires.nanosecond >= 1000000
        ==> Before(StoredInstant(expires), StoredInstant(now))
  {
    StoredInstantOrder(expires, now);
  }

  lemma StoredExpiry(s: Session, t: Instant)
    requires ValidInstant(t) && s.expiresAt == StoredInstant(t)
    ensures ExpiryOf(s) == Milliseconds(t)
  {
    StoredInstantReadsBack(t);
  }

  lemma StampedAfterInsert(rows: map<string, Session>, id: string, s: Session)
    requires Stamped(rows) && IsStored(s.expiresAt)
    ensures Stamped(rows[id := s])
  {
  }

  class SessionTable {
    var rows: map<string, Session>

    constructor ()
      ensures rows == map[]
    {
      rows := map[];
    }

    /** False when the id is taken: the primary key refuses the row. */
    method Create(id: string, userId: string, expires: Instant, created: Instant) returns (ok: bool)
      requires Stamped(rows) && ValidInstant(expires) && ValidInstant(created)
      modifies this
      ensures Stamped(rows)
      ensures ok <==> id !in old(rows)
      ensures !ok ==> rows == old(rows)
      ensures ok ==> id in rows && rows == old(rows)[id := rows[id]] && rows[id].userId == userId
      ensures ok ==> ExpiryOf(rows[id]) == Milliseconds(expires)
    {
      ok := id !in rows;
      if ok {
        var session := Session(userId, StoredInstant(expires), StoredInstant(created));
        StoredExpiry(session, expires);
        StampedAfterInsert(rows, id, session);
        rows := rows[id := session];
      }
    }

    /** Keeps exactly the sessions that have not expired by now, each as it was. */
    method DeleteExpiredAt(now: Instant)
      requires Stamped(rows) && ValidInstant(now)
      modifies this
      ensures Stamped(rows)
      ensures forall id :: id in rows <==> id in old(rows) && ExpiryOf(old(rows)[id]) >= Milliseconds(now)
      ensures forall id :: id in rows ==> rows[id] == old(rows)[id]
    {
      forall id | id in rows
        ensures Before(rows[id].expiresAt, StoredInstant(now)) <==> ExpiryOf(rows[id]) < Milliseconds(now)
      {
        SweepComparesInstants(rows[id], now);
      }
      rows := map id | id in rows && !Before(rows[id].expiresAt, StoredInstant(now)) :: rows[id];
    }
  }

  // --------------------------------------------------- the driver's old spelling

  /** SQLite's substr(s, start, length), with start counted from 1. */
  function Substr(s: string, start: nat, length: nat): string
    requires start >= 1
  {
    if start > |s| then ""
    else if start - 1 + length >= |s| then s[start - 1..]
    else s[start - 1..start - 1 + length]
  }

  /** The length SQLite counts down to where the first space is, from character 12 on. */
  function SpaceAfterClock(value: string): (sp: nat) {
    if |value| < 12 then 0 else IndexOf(value[11..], ' ') + 1
  }

  /** What migration 23 hands to strftime; a negative length only arises outside its guard. */
  function Rebuilt(value: string): string {
    var sp := SpaceAfterClock(value);
    Substr(value, 1, 10) + "T" + Substr(value, 12, if sp == 0 then 0 else sp - 1)
    + Substr(value, 12 + sp, 3) + ":" + Substr(value, 15 + sp, 2)
  }

  /** " +HHMM " or " -HHMM " at i. */
  predicate OffsetAt(s: string, i: nat) {
    && i + 7 <= |s| && s[i] == ' ' && (s[i + 1] == '+' || s[i + 1] == '-')
    && DigitsAt(s, i + 2, i + 6) && s[i + 6] == ' '
  }

  /** The migration's GLOB: date, space, time, anything, offset, anything. */
  predicate OldSpelling(s: string) {
    HasCivilShape(s, ' ') && exists i :: 19 <= i < |s| && OffsetAt(s, i)
  }

  /** One row of the UPDATE, strftime being given: a value it cannot convert stays. */
  function Respelled(value: string, strftime: string -> Option<string>): string {
    if OldSpelling(value) && strftime(Rebuilt(value)).Some? then strftime(Rebuilt(value)).value else value
  }

  /** time.Time.String(): civil time, fraction, offset, zone name and possibly a clock reading. */
  function GoTimeText(c: Civil, frac: string, sign: char, hours: int, minutes: int, zone: string): string {
    CivilText(c, ' ') + (frac + ([' ', sign] + (Decimal(hours, 2) + (Decimal(minutes, 2) + (" " + zone)))))
  }

  predicate GoTime(c: Civil, frac: string, sign: char, hours: int, minutes: int) {
    && Nameable(c) && IsFraction(frac)
    && (sign == '+' || sign == '-') && 0 <= hours < 24 && 0 <= minutes < 60
  }

  /** Any civil time at any offset, that of UTC included. */
  lemma GoTimeRange(c: Civil, hours: int, minutes: int)
    requires Nameable(c)
    ensures GoTime(c, "", '+', hours, minutes) <==> 0 <= hours <= 23 && 0 <= minutes <= 59
    ensures GoTime(c, ".5", '-', hours, minutes) <==> GoTime(c, "", '+', hours, minutes)
  {
  }

  lemma ClockHasNoSpace(c: Civil, frac: string)
    requires IsFraction(frac)
    ensures ' ' !in ClockText(c) + frac
  {
    NeverWritten(' ', [c.hour, c.minute, c.second], CLOCK);
    forall i | 0 <= i < |frac| ensures frac[i] != ' ' {
      if i > 0 { assert IsDigit(frac[1..][i - 1]); }
    }
  }

  lemma FromClockOn(d: string, k: string, frac: string, rest: string)
    requires |d| == 10
    ensures ((d + ([' '] + k)) + (frac + (" " + rest)))[11..] == (k + frac) + [' '] + rest
  {
  }

  lemma FirstSpaceAfterClock(c: Civil, frac: string, rest: string)
    requires Nameable(c) && IsFraction(frac)
    ensures SpaceAfterClock(CivilText(c, ' ') + (frac + (" " + rest))) == 9 + |frac|
  {
    ClockHasNoSpace(c, frac);
    IndexOfFirst(ClockText(c) + frac, ' ', rest);
    FromClockOn(DateText(c.date), ClockText(c), frac, rest);
  }

  lemma SubstrOfMiddle(a: string, b: string, c: string)
    ensures Substr(a + (b + c), |a| + 1, |b|) == b
  {
  }

  /** The same text, cut where the substring arithmetic cuts it. */
  lemma GoTextParts(d: string, k: string, frac: string, sign: char, h: string, m: string, zone: string)
    ensures (d + ([' '] + k)) + (frac + ([' ', sign] + (h + (m + (" " + zone)))))
         == d + (" " + ((k + frac) + (" " + (([sign] + h) + (m + (" " + zone))))))
    ensures (d + ([' '] + k)) + (frac + ([' ', sign] + (h + (m + (" " + zone)))))
         == (d + ([' '] + k)) + (frac + (" " + ([sign] + (h + (m + (" " + zone))))))
  {
  }

  lemma Rfc3339Parts(d: string, k: string, frac: string, sign: char, h: string, m: string)
    ensures d + "T" + (k + frac) + ([sign] + h) + ":" + m == (d + (['T'] + k)) + (frac + ([sign] + h + ":" + m))
  {
  }

  /** The substring arithmetic finds the offset and rebuilds RFC 3339. */
  lemma RebuiltIsRfc3339(c: Civil, frac: string, sign: char, hours: int, minutes: int, zone: string)
    requires GoTime(c, frac, sign, hours, minutes)
    ensures Rebuilt(GoTimeText(c, frac, sign, hours, minutes, zone))
         == CivilText(c, 'T') + (frac + OffsetText(sign, hours, minutes))
  {
    var d, k, h, m := DateText(c.date), ClockText(c), Decimal(hours, 2), Decimal(minutes, 2);
    FirstSpaceAfterClock(c, frac, [sign] + (h + (m + (" " + zone))));
    GoTextParts(d, k, frac, sign, h, m, zone);
    RebuiltFromParts(d, k + frac, [sign] + h, m, " " + zone);
    Rfc3339Parts(d, k, frac, sign, h, m);
  }

  lemma DateSubstr(date: string, rest: string)
    requires |date| == 10
    ensures Substr(date + rest, 1, 10) == date
  {
    SubstrOfMiddle("", date, rest);
    assert "" + (date + rest) == date + rest;
  }

  lemma HoursSubstr(date: string, clock: string, hours: string, rest: string)
    requires |date| == 10 && |hours| == 3
    ensures Substr(date + (" " + (clock + (" " + (hours + rest)))), |clock| + 13, 3) == hours
  {
    SubstrOfMiddle(date + (" " + (clock + " ")), hours, rest);
    assert (date + (" " + (clock + " "))) + (hours + rest) == date + (" " + (clock + (" " + (hours + rest))));
  }

  lemma ClockSubstr(date: string, clock: string, rest: string)
    requires |date| == 10
    ensures Substr(date + (" " + (clock + rest)), 12, |clock|) == clock
  {
    SubstrOfMiddle(date + " ", clock, rest);
    assert (date + " ") + (clock + rest) == date + (" " + (clock + rest));
  }

  lemma MinutesSubstr(date: string, clock: string, hours: string, minutes: string, zone: string)
    requires |date| == 10 && |hours| == 3 && |minutes| == 2
    ensures Substr(date + (" " + (clock + (" " + (hours + (minutes + zone))))), |clock| + 16, 2) == minutes
  {
    var head := date + (" " + (clock + (" " + hours)));
    SubstrOfMiddle(head, minutes, zone);
    assert head + (minutes + zone) == date + (" " + (clock + (" " + (hours + (minutes + zone)))));
  }

  lemma RebuiltFromParts(date: string, clock: string, hours: string, minutes: string, zone: string)
    requires |date| == 10 && |hours| == 3 && |minutes| == 2
    requires SpaceAfterClock(date + (" " + (clock + (" " + (hours + (minutes + zone)))))) == |clock| + 1
    ensures Rebuilt(date + (" " + (clock + (" " + (hours + (minutes + zone))))))
         == date + "T" + clock + hours + ":" + minutes
  {
    DateSubstr(date, " " + (clock + (" " + (hours + (minutes + zone)))));
    ClockSubstr(date, clock, " " + (hours + (minutes + zone)));
    HoursSubstr(date, clock, hours, minutes + zone);
    MinutesSubstr(date, clock, hours, minutes, zone);
  }

  lemma RebuiltHalves(c: Civil, frac: string, sign: char, hours: int, minutes: int, zone: string)
    requires GoTime(c, frac, sign, hours, minutes)
    ensures var text := Rebuilt(GoTimeText(c, frac, sign, hours, minutes, zone));
            19 <= |text| && text[..19] == CivilText(c, 'T') && text[19..] == frac + OffsetText(sign, hours, minutes)
  {
    RebuiltIsRfc3339(c, frac, sign, hours, minutes, zone);
    Halves(CivilText(c, 'T'), frac + OffsetText(sign, hours, minutes));
  }

  /** Whatever the driver wrote, what strftime is asked to convert names the same instant. */
  lemma RebuiltKeepsInstant(c: Civil, frac: string, sign: char, hours: int, minutes: int, zone: string)
    requires GoTime(c, frac, sign, hours, minutes)
    ensures ReadRfc3339(Rebuilt(GoTimeText(c, frac, sign, hours, minutes, zone)))
         == Some(Instant(SecondNumber(c) - OffsetSeconds(sign, hours, minutes), FractionNanoseconds(frac)))
  {
    hide ReadRfc3339, CivilText, Rebuilt, GoTimeText, OffsetText;
    RebuiltHalves(c, frac, sign, hours, minutes, zone);
    OffsetTextReads(sign, hours, minutes);
    ReadsTogether(Rebuilt(GoTimeText(c, frac, sign, hours, minutes, zone)), c, frac,
                  OffsetText(sign, hours, minutes), OffsetSeconds(sign, hours, minutes));
  }

  lemma Regroup(a: string, b: string, c: string)
    ensures (a + b) + c == a + (b + c)
  {
  }

  lemma OffsetPlace(before: string, sign: char, h: string, m: string, zone: string)
    requires (sign == '+' || sign == '-') && |h| == |m| == 2 && AllDigits(h) && AllDigits(m)
    ensures OffsetAt(before + ([' ', sign] + (h + (m + (" " + zone)))), |before|)
  {
    var s := before + ([' ', sign] + (h + (m + (" " + zone))));
    assert s[|before| + 2..|before| + 6] == h + m;
  }

  /** The migration's guard admits it. */
  lemma GoTextMatches(c: Civil, frac: string, sign: char, hours: int, minutes: int, zone: string)
    requires GoTime(c, frac, sign, hours, minutes)
    ensures OldSpelling(GoTimeText(c, frac, sign, hours, minutes, zone))
  {
    var h, m := Decimal(hours, 2), Decimal(minutes, 2);
    var rest := [' ', sign] + (h + (m + (" " + zone)));
    CivilReadsBack(c, ' ', frac + rest);
    OffsetPlace(CivilText(c, ' ') + frac, sign, h, m, zone);
    Regroup(CivilText(c, ' '), frac, rest);
  }

  /** The new spelling is outside the guard. */
  lemma NewSpellingIsSkipped(t: Instant)
    requires ValidInstant(t)
    ensures !OldSpelling(StoredInstant(t))
  {
  }

  /** Running the migration again changes nothing, whatever was in the column. */
  lemma RespellingTwice(value: string, strftime: string -> Option<string>)
    requires strftime(Rebuilt(value)).Some?
         ==> IsStored(strftime(Rebuilt(value)).value)
    ensures Respelled(Respelled(value, strftime), strftime) == Respelled(value, strftime)
  {
    if OldSpelling(value) && strftime(Rebuilt(value)).Some? {
      var t :| ValidInstant(t) && strftime(Rebuilt(value)).value == StoredInstant(t);
      NewSpellingIsSkipped(t);
    }
  }
}
