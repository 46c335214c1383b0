/**
 Migration 23 over a whole column: which values its GLOB admits, told by a matcher
 of its own, and what every value becomes.
 */
module OldSpellings {
  import opened Wrappers
  import opened Calendar
  import opened Decimals
  import opened Layouts
  import opened Rfc3339Calendar
  import opened Spellings
  import opened StoredInstants
  import opened Timestamps

  // -------------------------------------------------------------------- the GLOB

  /** One character of a set, or any run of characters. */
  datatype Piece = One(chars: set<char>) | Many

  /** SQLite's GLOB, case-sensitive and anchored at both ends. */
  predicate Globs(pattern: seq<Piece>, s: string)
    decreases |pattern|
  {
    if pattern == [] then s == ""
    else
      match pattern[0]
      case One(chars) => s != "" && s[0] in chars && Globs(pattern[1..], s[1..])
      case Many => exists i :: 0 <= i <= |s| && Globs(pattern[1..], s[i..])
  }

  const D: Piece := One({'0', '1', '2', '3', '4', '5', '6', '7', '8', '9'})
  const DASH: Piece := One({'-'})
  const COLON: Piece := One({':'})
  const SPACE: Piece := One({' '})

  const DATE_AND_TIME: seq<Piece> := [D, D, D, D, DASH, D, D, DASH, D, D, SPACE, D, D, COLON, D, D, COLON, D, D]
  const ZONE: seq<Piece> := [SPACE, One({'+', '-'}), D, D, D, D, SPACE]

  /** The pattern of the migration's WHERE clause. */
  const OLD: seq<Piece> := DATE_AND_TIME + [Many] + ZONE + [Many]

  predicate Fixed(pattern: seq<Piece>) {
    forall i :: 0 <= i < |pattern| ==> pattern[i].One?
  }

  predicate FixedMatch(pattern: seq<Piece>, s: string)
    requires Fixed(pattern)
  {
    |pattern| <= |s| && forall i :: 0 <= i < |pattern| ==> s[i] in pattern[i].chars
  }

  lemma {:induction false} FixedFirst(pattern: seq<Piece>, rest: seq<Piece>, s: string)
    requires Fixed(pattern)
    ensures Globs(pattern + rest, s) <==> FixedMatch(pattern, s) && Globs(rest, s[|pattern|..])
    decreases |pattern|
  {
    if pattern == [] {
      assert pattern + rest == rest && s[0..] == s;
    } else {
      assert (pattern + rest)[0] == pattern[0] && (pattern + rest)[1..] == pattern[1..] + rest;
      if s != "" {
        FixedFirst(pattern[1..], rest, s[1..]);
        FixedStep(pattern, s);
        if |pattern| <= |s| { assert s[1..][|pattern| - 1..] == s[|pattern|..]; }
      }
    }
  }

  lemma FixedStep(pattern: seq<Piece>, s: string)
    requires Fixed(pattern) && pattern != [] && s != ""
    ensures FixedMatch(pattern, s) <==> s[0] in pattern[0].chars && FixedMatch(pattern[1..], s[1..])
  {
    if s[0] in pattern[0].chars && FixedMatch(pattern[1..], s[1..]) {
      forall i | 0 <= i < |pattern| ensures s[i] in pattern[i].chars {
        if i > 0 { assert s[1..][i - 1] in pattern[1..][i - 1].chars; }
      }
    }
    if FixedMatch(pattern, s) {
      forall i | 0 <= i < |pattern| - 1 ensures s[1..][i] in pattern[1..][i].chars {
        assert s[i + 1] in pattern[i + 1].chars;
      }
    }
  }

  lemma ManyAtEnd(s: string)
    ensures Globs([Many], s)
  {
    assert [Many][1..] == [] && s[|s|..] == "";
    assert Globs([], s[|s|..]);
  }

  lemma OldInParts(s: string)
    ensures Globs(OLD, s)
       <==> FixedMatch(DATE_AND_TIME, s)
            && exists i :: 0 <= i <= |s[19..]| && FixedMatch(ZONE, s[19..][i..])
  {
    var tail := [Many] + (ZONE + [Many]);
    assert OLD == DATE_AND_TIME + tail;
    FixedFirst(DATE_AND_TIME, tail, s);
    if 19 <= |s| {
      assert tail[0] == Many && tail[1..] == ZONE + [Many];
      forall i | 0 <= i <= |s[19..]| ensures Globs(ZONE + [Many], s[19..][i..]) <==> FixedMatch(ZONE, s[19..][i..]) {
        FixedFirst(ZONE, [Many], s[19..][i..]);
        if FixedMatch(ZONE, s[19..][i..]) { ManyAtEnd(s[19..][i..][|ZONE|..]); }
      }
    }
  }

  lemma DigitInSet(c: char)
    ensures c in D.chars <==> IsDigit(c)
  {
  }

  function Digits(w: nat): seq<Piece> {
    seq(w, _ => D)
  }

  function Letters(s: string): seq<Piece> {
    seq(|s|, i requires 0 <= i < |s| => One({s[i]}))
  }

  /** The pattern of a fixed layout. */
  function Pieces(layout: Layout): (p: seq<Piece>)
    ensures Fixed(p)
  {
    if layout == [] then [] else Digits(layout[0].width) + (Letters(layout[0].after) + Pieces(layout[1..]))
  }

  lemma MatchInTwo(p: seq<Piece>, q: seq<Piece>, s: string)
    requires Fixed(p) && Fixed(q)
    ensures FixedMatch(p + q, s) <==> FixedMatch(p, s) && FixedMatch(q, s[|p|..])
  {
    if |p| + |q| <= |s| {
      assert forall i :: 0 <= i < |p| ==> (p + q)[i] == p[i];
      assert forall i :: 0 <= i < |q| ==> (p + q)[|p| + i] == q[i] && s[|p|..][i] == s[|p| + i];
    }
  }

  lemma DigitsMatch(w: nat, s: string)
    ensures FixedMatch(Digits(w), s) <==> w <= |s| && AllDigits(s[..w])
  {
    if w <= |s| {
      forall i | 0 <= i < w ensures s[i] in Digits(w)[i].chars <==> IsDigit(s[..w][i]) { DigitInSet(s[i]); }
    }
  }

  lemma LettersMatch(after: string, s: string)
    ensures FixedMatch(Letters(after), s) <==> after <= s
  {
    if FixedMatch(Letters(after), s) {
      forall i | 0 <= i < |after| ensures s[i] == after[i] { assert s[i] in Letters(after)[i].chars; }
    }
  }

  lemma {:induction false} LayoutMatches(s: string, layout: Layout)
    ensures Scan(s, layout).Some? <==> FixedMatch(Pieces(layout), s)
    decreases |layout|
  {
    if layout != [] {
      var w, after, rest := layout[0].width, layout[0].after, Pieces(layout[1..]);
      MatchInTwo(Digits(w), Letters(after) + rest, s);
      DigitsMatch(w, s);
      if w <= |s| {
        MatchInTwo(Letters(after), rest, s[w..]);
        LettersMatch(after, s[w..]);
        if w + |after| <= |s| {
          assert s[w..][..|after|] == s[w..w + |after|] && s[w..][|after|..] == s[w + |after|..];
          LayoutMatches(s[w + |after|..], layout[1..]);
        }
      }
    }
  }

  lemma PiecesOfThree(layout: Layout)
    requires |layout| == 3
    ensures Pieces(layout)
         == Digits(layout[0].width) + Letters(layout[0].after) + Digits(layout[1].width) + Letters(layout[1].after)
            + Digits(layout[2].width) + Letters(layout[2].after)
  {
    assert layout[1..][1..] == [layout[2]] && layout[1..][1..][1..] == [];
    assert Pieces(layout[1..][1..]) == Digits(layout[2].width) + Letters(layout[2].after);
  }

  lemma DatePieces()
    ensures Pieces(DATE) == [D, D, D, D, DASH, D, D, DASH, D, D]
  {
    PiecesOfThree(DATE);
    assert Letters("-") == [DASH] && Letters("") == [] && Digits(4) == [D, D, D, D] && Digits(2) == [D, D];
  }

  lemma ClockPieces()
    ensures Pieces(CLOCK) == [D, D, COLON, D, D, COLON, D, D]
  {
    PiecesOfThree(CLOCK);
    assert Letters(":") == [COLON] && Letters("") == [] && Digits(2) == [D, D];
  }

  lemma DateAndTimePieces()
    ensures DATE_AND_TIME == Pieces(DATE) + ([SPACE] + Pieces(CLOCK))
  {
    DatePieces();
    ClockPieces();
  }

  lemma DateAndTimeShape(s: string)
    ensures FixedMatch(DATE_AND_TIME, s) <==> HasCivilShape(s, ' ')
  {
    hide Scan, Pieces, FixedMatch;
    DateAndTimePieces();
    LayoutMatches(s, DATE);
    PiecesLength();
    MatchInTwo(Pieces(DATE), [SPACE] + Pieces(CLOCK), s);
    if 10 <= |s| {
      MatchInTwo([SPACE], Pieces(CLOCK), s[10..]);
      OneSpace(s[10..]);
      if 11 <= |s| {
        assert s[10..][1..] == s[11..];
        LayoutMatches(s[11..], CLOCK);
      }
    }
    MatchNeedsLength(Pieces(DATE), s);
    if 11 <= |s| { MatchNeedsLength(Pieces(CLOCK), s[11..]); }
  }

  lemma PiecesLength()
    ensures |Pieces(DATE)| == 10 && |Pieces(CLOCK)| == 8
  {
    PiecesOfThree(DATE);
    PiecesOfThree(CLOCK);
  }

  lemma OneSpace(s: string)
    ensures FixedMatch([SPACE], s) <==> s != "" && s[0] == ' '
  {
  }

  lemma MatchNeedsLength(p: seq<Piece>, s: string)
    requires Fixed(p)
    ensures FixedMatch(p, s) ==> |p| <= |s|
  {
  }

  lemma ZoneMatch(z: string)
    ensures FixedMatch(ZONE, z) <==>
      && 7 <= |z| && z[0] == ' ' && (z[1] == '+' || z[1] == '-') && IsDigit(z[2]) && IsDigit(z[3]) && IsDigit(z[4])
      && IsDigit(z[5]) && z[6] == ' '
  {
    if 7 <= |z| {
      DigitInSet(z[2]);
      DigitInSet(z[3]);
      DigitInSet(z[4]);
      DigitInSet(z[5]);
      assert |ZONE| == 7;
      if FixedMatch(ZONE, z) {
        assert z[0] in ZONE[0].chars && z[1] in ZONE[1].chars && z[2] in ZONE[2].chars && z[3] in ZONE[3].chars;
        assert z[4] in ZONE[4].chars && z[5] in ZONE[5].chars && z[6] in ZONE[6].chars;
      }
    }
  }

  lemma FourDigits(four: string)
    requires |four| == 4
    ensures AllDigits(four) <==> IsDigit(four[0]) && IsDigit(four[1]) && IsDigit(four[2]) && IsDigit(four[3])
  {
  }

  lemma ZoneShape(s: string, i: nat)
    requires i <= |s|
    ensures FixedMatch(ZONE, s[i..]) <==> OffsetAt(s, i)
  {
    hide FixedMatch;
    ZoneMatch(s[i..]);
    if i + 7 <= |s| {
      var z, four := s[i..], s[i + 2..i + 6];
      FourDigits(four);
      assert z[0] == s[i] && z[1] == s[i + 1] && z[6] == s[i + 6];
      assert four[0] == z[2] && four[1] == z[3] && four[2] == z[4] && four[3] == z[5];
      assert DigitsAt(s, i + 2, i + 6) <==> AllDigits(four);
    }
  }

  /** The guard is the migration's GLOB. */
  lemma GuardIsTheGlob(s: string)
    ensures OldSpelling(s) <==> Globs(OLD, s)
  {
    hide FixedMatch, OffsetAt, HasCivilShape;
    OldInParts(s);
    DateAndTimeShape(s);
    MatchNeedsLength(DATE_AND_TIME, s);
    if HasCivilShape(s, ' ') {
      if i :| 19 <= i < |s| && OffsetAt(s, i) {
        ZoneShape(s, i);
        assert s[19..][i - 19..] == s[i..];
      }
      if j :| 0 <= j <= |s[19..]| && FixedMatch(ZONE, s[19..][j..]) {
        assert s[19..][j..] == s[19 + j..];
        MatchNeedsLength(ZONE, s[19..][j..]);
        ZoneShape(s, 19 + j);
      }
    }
  }

  // ----------------------------------------------------------------- the column

  /** strftime with this layout turns RFC 3339 text into the stored spelling of its instant. */
  ghost predicate Converts(strftime: string -> Option<string>) {
    forall text, t :: ReadRfc3339(text) == Some(t) && ValidInstant(t) ==> strftime(text) == Some(StoredInstant(t))
  }

  /** There is such a conversion. */
  lemma ConversionExists()
    ensures Converts((text: string) => match ReadRfc3339(text) case Some(t) => Some(StoredInstant(t)) case None => None)
  {
  }

  /** The instant an old value names. */
  function OldInstant(c: Civil, frac: string, sign: char, hours: int, minutes: int): Instant {
    Instant(SecondNumber(c) - OffsetSeconds(sign, hours, minutes), FractionNanoseconds(frac))
  }

  /** Every old value becomes the stored spelling of the instant it names. */
  lemma OldBecomesStored(c: Civil, frac: string, sign: char, hours: int, minutes: int, zone: string,
                         strftime: string -> Option<string>)
    requires GoTime(c, frac, sign, hours, minutes) && Converts(strftime)
    requires ValidInstant(OldInstant(c, frac, sign, hours, minutes))
    ensures Respelled(GoTimeText(c, frac, sign, hours, minutes, zone), strftime)
         == StoredInstant(OldInstant(c, frac, sign, hours, minutes))
  {
    hide ReadRfc3339, StoredInstant, Rebuilt, GoTimeText, OldSpelling, ValidInstant, OffsetSeconds;
    GoTextMatches(c, frac, sign, hours, minutes, zone);
    RebuiltKeepsInstant(c, frac, sign, hours, minutes, zone);
  }

  /** A value outside the GLOB, or that strftime cannot read, stays as it is. */
  lemma OthersAreKept(value: string, strftime: string -> Option<string>)
    ensures Respelled(value, strftime) != value ==> Globs(OLD, value) && strftime(Rebuilt(value)).Some?
    ensures !Globs(OLD, value) || strftime(Rebuilt(value)) == None ==> Respelled(value, strftime) == value
  {
    GuardIsTheGlob(value);
  }

  /** An old value of this instant, or its stored spelling already. */
  ghost predicate OldOrNew(value: string, t: Instant) {
    ValidInstant(t)
    && (value == StoredInstant(t)
        || exists c, frac, sign, hours, minutes, zone ::
             && GoTime(c, frac, sign, hours, minutes) && t == OldInstant(c, frac, sign, hours, minutes)
             && value == GoTimeText(c, frac, sign, hours, minutes, zone))
  }

  /** Every old value, and every stored one, is one or the other. */
  lemma OldAndNewAreSuch(c: Civil, frac: string, sign: char, hours: int, minutes: int, zone: string, t: Instant)
    ensures ValidInstant(t) ==> OldOrNew(StoredInstant(t), t)
    ensures GoTime(c, frac, sign, hours, minutes) && ValidInstant(OldInstant(c, frac, sign, hours, minutes)) ==>
      OldOrNew(GoTimeText(c, frac, sign, hours, minutes, zone), OldInstant(c, frac, sign, hours, minutes))
  {
  }

  function RespelledColumn(column: map<string, string>, strftime: string -> Option<string>): map<string, string> {
    map id | id in column :: Respelled(column[id], strftime)
  }

  /** After the migration a column of old and new values holds stored spellings only, each of the instant it named. */
  lemma ColumnIsStored(column: map<string, string>, instants: map<string, Instant>, strftime: string -> Option<string>)
    requires column.Keys == instants.Keys && Converts(strftime)
    requires forall id :: id in column ==> OldOrNew(column[id], instants[id])
    ensures var after := RespelledColumn(column, strftime);
            && after.Keys == column.Keys
            && forall id :: id in after ==>
                 && after[id] == StoredInstant(instants[id]) && IsStored(after[id])
                 && MillisecondOf(after[id]) == Milliseconds(instants[id])
  {
    hide StoredInstant, Respelled, OldOrNew, IsStored, MillisecondOf, Converts;
    forall id | id in column
      ensures Respelled(column[id], strftime) == StoredInstant(instants[id])
      ensures IsStored(StoredInstant(instants[id]))
      ensures MillisecondOf(StoredInstant(instants[id])) == Milliseconds(instants[id])
    {
      RespelledIsStored(column[id], instants[id], strftime);
    }
  }

  lemma RespelledIsStored(value: string, t: Instant, strftime: string -> Option<string>)
    requires OldOrNew(value, t) && Converts(strftime)
    ensures Respelled(value, strftime) == StoredInstant(t) && IsStored(StoredInstant(t))
    ensures MillisecondOf(StoredInstant(t)) == Milliseconds(t)
  {
    hide StoredInstant, ReadRfc3339, GoTimeText, Rebuilt, OldSpelling, Converts, OldInstant, GoTime;
    StoredInstantReadsBack(t);
    if value == StoredInstant(t) {
      NewSpellingIsSkipped(t);
    } else {
      var c, frac, sign, hours, minutes, zone :|
        && GoTime(c, frac, sign, hours, minutes) && t == OldInstant(c, frac, sign, hours, minutes)
        && value == GoTimeText(c, frac, sign, hours, minutes, zone);
      OldBecomesStored(c, frac, sign, hours, minutes, zone, strftime);
    }
  }

  // -------------------------------------------------------------------- example

  lemma SpacedText(c: Civil)
    ensures CivilText(c, ' ') == CivilText(c, 'T')[..10] + " " + CivilText(c, 'T')[11..]
  {
    var date, clock := DateText(c.date), ClockText(c);
    assert (date + (['T'] + clock))[..10] == date && (date + (['T'] + clock))[11..] == clock;
  }

  lemma NoMilliseconds()
    ensures MillisecondText(0) == ".000"
  {
    DecimalStep(0, 2);
    DecimalStep(0, 1);
    DecimalStep(0, 0);
  }

  lemma EstText()
    ensures GoTimeText(Civil(Date(2026, 11, 1), 1, 10, 0), "", '-', 5, 0, "EST") == "2026-11-01 01:10:00 -0500 EST"
  {
    hide Decimal, CivilText, Local;
    var c := Civil(Date(2026, 11, 1), 1, 10, 0);
    LocalIsCivilText(2026, 11, 1, 1, 10, 0);
    LocalDigits(2026, 11, 1, 1, 10, 0);
    SpacedText(c);
    assert CivilText(c, ' ') == "2026-11-01 01:10:00";
    TwoDigitText(5);
    TwoDigitText(0);
  }

  lemma EstInstant()
    ensures var t := OldInstant(Civil(Date(2026, 11, 1), 1, 10, 0), "", '-', 5, 0);
            ValidInstant(t) && t.nanosecond == 0 && CivilOf(t.second) == Civil(Date(2026, 11, 1), 6, 10, 0)
  {
    hide DaysBeforeYear, DaysBeforeMonth, CivilOf;
    SecondsOf(2026, 11, 1, 1, 10, 0);
    SecondsOf(2026, 11, 1, 6, 10, 0);
    CivilOfSecondNumber(Civil(Date(2026, 11, 1), 6, 10, 0));
    FourDigitYears(SecondNumber(Civil(Date(2026, 11, 1), 6, 10, 0)));
  }

  lemma EstTime()
    ensures GoTime(Civil(Date(2026, 11, 1), 1, 10, 0), "", '-', 5, 0)
  {
  }

  lemma EstStored()
    ensures StoredInstant(OldInstant(Civil(Date(2026, 11, 1), 1, 10, 0), "", '-', 5, 0)) == "2026-11-01T06:10:00.000Z"
  {
    hide OldInstant, CivilText, Local, CivilOf, MillisecondText;
    EstInstant();
    LocalIsCivilText(2026, 11, 1, 6, 10, 0);
    LocalDigits(2026, 11, 1, 6, 10, 0);
    assert Local(2026, 11, 1, 6, 10, 0) == "2026-11-01T06:10:00";
    NoMilliseconds();
  }

  /** The source's own case: ten past one in the morning after the clocks went back. */
  lemma EstExample(strftime: string -> Option<string>)
    requires Converts(strftime)
    ensures Respelled("2026-11-01 01:10:00 -0500 EST", strftime) == "2026-11-01T06:10:00.000Z"
  {
    hide *;
    EstTime();
    EstText();
    EstInstant();
    EstStored();
    OldBecomesStored(Civil(Date(2026, 11, 1), 1, 10, 0), "", '-', 5, 0, "EST", strftime);
  }
}
