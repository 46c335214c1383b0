/**
 The update_history table: rows written with canonical timestamps, and the reads
 and deletes that compare those timestamps as text.
 */
module UpdateHistory {
  import opened Wrappers
  import opened Calendar
  import opened Decimals
  import opened Timestamps
  import opened Retention

  datatype Entry = Entry(status: string, startedAt: string, completedAt: Option<string>)

  type Rows = map<string, Entry>

  /** Every timestamp is in the canonical form. */
  predicate Canonical(rows: Rows) {
    forall id :: id in rows ==>
      IsCanonical(rows[id].startedAt) && (rows[id].completedAt.Some? ==> IsCanonical(rows[id].completedAt.value))
  }

  /** A bound given as an instant, bound as text: its second, in UTC. */
  function BoundText(t: Instant): string {
    SecondText(t.second, 'T') + "Z"
  }

  lemma BoundComparesInstants(stored: string, t: Instant)
    requires IsCanonical(stored) && InFourDigitYears(t.second)
    ensures Before(stored, BoundText(t)) <==> StampOf(stored) < t.second
    ensures Before(BoundText(t), stored) <==> t.second < StampOf(stored)
  {
    CanonicalBeforeSecond(stored, t.second);
    CanonicalFromStamp(stored);
    SecondTextsInOrder(t.second, StampOf(stored), 'T');
    BeforeByHead(SecondText(t.second, 'T'), SecondText(StampOf(stored), 'T'), "Z", "Z");
    BeforeIrreflexive("Z");
  }

  // ------------------------------------------------------------------------ reads

  datatype Filter = Filter(from: Option<Instant>, to: Option<Instant>)

  predicate ValidFilter(f: Filter) {
    (f.from.Some? ==> InFourDigitYears(f.from.value.second)) && (f.to.Some? ==> InFourDigitYears(f.to.value.second))
  }

  /** started_at >= ? AND started_at <= ?, as text. */
  predicate Matches(e: Entry, f: Filter) {
    && (f.from.Some? ==> !Before(e.startedAt, BoundText(f.from.value)))
    && (f.to.Some? ==> !Before(BoundText(f.to.value), e.startedAt))
  }

  /** The text filter selects by instant, to the second, in whatever zone its bounds were given. */
  lemma FilterSelectsByInstant(e: Entry, f: Filter)
    requires IsCanonical(e.startedAt) && ValidFilter(f)
    ensures Matches(e, f)
       <==> && (f.from.Some? ==> f.from.value.second <= StampOf(e.startedAt))
            && (f.to.Some? ==> StampOf(e.startedAt) <= f.to.value.second)
  {
    if f.from.Some? { BoundComparesInstants(e.startedAt, f.from.value); }
    if f.to.Some? { BoundComparesInstants(e.startedAt, f.to.value); }
  }

  /** Successful updates started within the last days, as GetUpdateStats counts them. */
  function Recent(rows: Rows, now: Instant, days: int): set<string> {
    var cutoff := Instant(now.second - days * SECONDS_PER_DAY, 0);
    set id | id in rows && rows[id].status == "success" && Matches(rows[id], Filter(Some(cutoff), None))
  }

  lemma RecentByInstant(rows: Rows, now: Instant, days: int, id: string)
    requires Canonical(rows) && id in rows && InFourDigitYears(now.second - days * SECONDS_PER_DAY)
    ensures id in Recent(rows, now, days)
       <==> rows[id].status == "success" && StampOf(rows[id].startedAt) >= now.second - days * SECONDS_PER_DAY
  {
    hide Matches, IsCanonical, StampOf;
    FilterSelectsByInstant(rows[id], Filter(Some(Instant(now.second - days * SECONDS_PER_DAY, 0)), None));
  }

  // ------------------------------------------------------------------------ pages

  const MAX_INT: int := 0x7FFF_FFFF_FFFF_FFFF

  function PageSize(limit: int): (n: int)
    ensures n >= 1
  {
    if limit <= 0 then 25 else limit
  }

  function PageNumber(page: int): (n: int)
    ensures n >= 1
  {
    if page <= 0 then 1 else page
  }

  /** LIMIT size OFFSET offset */
  function Slice<T>(all: seq<T>, offset: int, size: int): seq<T>
    requires 0 <= offset && 1 <= size
  {
    if offset >= |all| then [] else if offset + size <= |all| then all[offset..offset + size] else all[offset..]
  }

  /** A page, guarded against an offset that does not fit an int. */
  function PageOf<T>(all: seq<T>, page: int, limit: int): seq<T> {
    var size, number := PageSize(limit), PageNumber(page);
    if number - 1 > MAX_INT / size then []
    else
      ProductsAreOrdered(0, number - 1, size);
      Slice(all, (number - 1) * size, size)
  }

  lemma ProductsAreOrdered(a: int, b: int, size: int)
    requires a <= b && 0 <= size
    ensures a * size <= b * size
  {
    assert (b - a) * size >= 0;
  }

  lemma QuotientBounds(max: int, size: int)
    requires 0 <= max && 1 <= size
    ensures (max / size) * size <= max < (max / size + 1) * size
  {
  }

  /** The guard tests the operands, and is exact: it refuses the products that do not fit and no others. */
  lemma GuardIsExact(n: int, size: int, max: int)
    requires 0 <= n && 1 <= size && 0 <= max
    ensures n > max / size <==> n * size > max
  {
    QuotientBounds(max, size);
    if n > max / size { ProductsAreOrdered(max / size + 1, n, size); } else { ProductsAreOrdered(n, max / size, size); }
  }

  /** Every page is the slice its numbers ask for in unbounded arithmetic: what the guard refuses lies past the end. */
  lemma PageIsTheSlice<T>(all: seq<T>, page: int, limit: int)
    requires |all| <= MAX_INT
    ensures 0 <= (PageNumber(page) - 1) * PageSize(limit)
    ensures PageOf(all, page, limit) == Slice(all, (PageNumber(page) - 1) * PageSize(limit), PageSize(limit))
  {
    ProductsAreOrdered(0, PageNumber(page) - 1, PageSize(limit));
    GuardIsExact(PageNumber(page) - 1, PageSize(limit), MAX_INT);
  }

  /** Sizes and numbers that ask for nothing ask for 25 rows and for the first page. */
  lemma PageDefaults<T>(all: seq<T>, page: int, limit: int)
    requires |all| <= MAX_INT
    ensures limit <= 0 ==> PageOf(all, page, limit) == PageOf(all, page, 25)
    ensures page <= 0 ==> PageOf(all, page, limit) == PageOf(all, 1, limit)
    ensures 1 <= page && 1 <= limit ==>
      0 <= (page - 1) * limit && PageOf(all, page, limit) == Slice(all, (page - 1) * limit, limit)
  {
    if 1 <= page && 1 <= limit { PageIsTheSlice(all, page, limit); }
  }

  /** The first pages, one after another. */
  function FirstPages<T>(all: seq<T>, limit: int, n: nat): seq<T> {
    if n == 0 then [] else FirstPages(all, limit, n - 1) + PageOf(all, n, limit)
  }

  /** The list up to an end, or all of it. */
  function UpTo<T>(all: seq<T>, end: int): seq<T>
    requires 0 <= end
  {
    if end >= |all| then all else all[..end]
  }

  lemma SliceExtends<T>(all: seq<T>, offset: int, size: int)
    requires 0 <= offset && 1 <= size
    ensures UpTo(all, offset) + Slice(all, offset, size) == UpTo(all, offset + size)
  {
  }

  /** Turning the pages shows every row once, in order. */
  lemma {:induction false} PagesCoverOnce<T>(all: seq<T>, limit: int, n: nat)
    requires |all| <= MAX_INT
    ensures 0 <= n * PageSize(limit) && FirstPages(all, limit, n) == UpTo(all, n * PageSize(limit))
  {
    var size := PageSize(limit);
    ProductsAreOrdered(0, n, size);
    if n > 0 {
      PagesCoverOnce(all, limit, n - 1);
      PageIsTheSlice(all, n, limit);
      SliceExtends(all, (n - 1) * size, size);
      assert (n - 1) * size + size == n * size;
    }
  }

  // ----------------------------------------------------------------------- writes

  class Table {
    var rows: Rows

    constructor ()
      ensures rows == map[]
    {
      rows := map[];
    }

    /** False when the id is taken. Storable timestamps are stored canonically, whatever their spelling. */
    method Insert(id: string, status: string, startedAt: string, completedAt: Option<string>) returns (ok: bool)
      modifies this
      ensures ok <==> id !in old(rows)
      ensures !ok ==> rows == old(rows)
      ensures ok ==> id in rows && rows == old(rows)[id := rows[id]] && rows[id].status == status
      ensures ok && Storable(startedAt) ==>
        IsCanonical(rows[id].startedAt) && StampOf(rows[id].startedAt) == SecondNamed(startedAt)
      ensures ok && !Storable(startedAt) ==> rows[id].startedAt == startedAt
      ensures ok ==> (rows[id].completedAt.Some? <==> completedAt.Some?)
      ensures ok && completedAt.Some? && Storable(completedAt.value) ==>
        && IsCanonical(rows[id].completedAt.value)
        && StampOf(rows[id].completedAt.value) == SecondNamed(completedAt.value)
      ensures ok && completedAt.Some? && !Storable(completedAt.value) ==> rows[id].completedAt == completedAt
      ensures Canonical(old(rows)) && Storable(startedAt) && (completedAt.Some? ==> Storable(completedAt.value)) ==>
        Canonical(rows)
    {
      hide CanonicalTimestamp, IsCanonical, StampOf, Storable, InstantOf;
      ok := id !in rows;
      if ok {
        StoredStamp(startedAt);
        if completedAt.Some? { StoredStamp(completedAt.value); }
        rows := rows[id := Entry(status, CanonicalTimestamp(startedAt),
                                 if completedAt.Some? then Some(CanonicalTimestamp(completedAt.value)) else None)];
      }
    }

    /** Boot: every update still pending is marked failed, completed now, so that retention can reach it. */
    method SweepInterrupted(now: Instant) returns (swept: nat)
      requires Canonical(rows) && InFourDigitYears(now.second)
      modifies this
      ensures Canonical(rows) && rows.Keys == old(rows).Keys
      ensures forall id :: id in rows ==>
        if old(rows)[id].status == "pending" then
          && rows[id].status == "failed" && rows[id].startedAt == old(rows)[id].startedAt
          && rows[id].completedAt.Some? && StampOf(rows[id].completedAt.value) == now.second
        else rows[id] == old(rows)[id]
      ensures swept == |set id | id in old(rows) && old(rows)[id].status == "pending"|
    {
      hide IsCanonical, InstantOf, SecondText, CanonicalTimestamp;
      WrittenIsCanonical(now.second);
      CanonicalMeaning(BoundText(now));
      swept := |set id | id in rows && rows[id].status == "pending"|;
      rows := map id | id in rows ::
        if rows[id].status == "pending" then Entry("failed", rows[id].startedAt, Some(BoundText(now))) else rows[id];
    }

    /** Deletes by instant, to the second; an update that has not completed stays. */
    method DeleteOlderThan(before: Instant) returns (deleted: nat)
      requires Canonical(rows) && InFourDigitYears(before.second)
      modifies this
      ensures Canonical(rows)
      ensures forall id :: id in rows <==>
        (id in old(rows)
            && (old(rows)[id].completedAt.Some? ==> StampOf(old(rows)[id].completedAt.value) >= before.second))
      ensures forall id :: id in rows ==> rows[id] == old(rows)[id]
      ensures deleted == |old(rows)| - |rows|
    {
      forall id | id in rows && rows[id].completedAt.Some?
        ensures Before(rows[id].completedAt.value, BoundText(before))
            <==> StampOf(rows[id].completedAt.value) < before.second
      {
        BoundComparesInstants(rows[id].completedAt.value, before);
      }
      var kept := map id | id in rows
          && !(rows[id].completedAt.Some? && Before(rows[id].completedAt.value, BoundText(before)))
                  :: rows[id];
      SubmapIsSmaller(kept, rows);
      deleted := |rows| - |kept|;
      rows := kept;
    }
  }

  function SecondNamed(value: string): int
    requires Storable(value)
  {
    InstantOf(value).value.second
  }

  lemma StoredStamp(value: string)
    ensures Storable(value) ==>
      IsCanonical(CanonicalTimestamp(value)) && StampOf(CanonicalTimestamp(value)) == SecondNamed(value)
    ensures !Storable(value) ==> CanonicalTimestamp(value) == value
  {
    if Storable(value) {
      CanonicalKeepsInstant(value);
      CanonicalMeaning(CanonicalTimestamp(value));
    }
  }
}
