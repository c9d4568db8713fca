/** Archiving in batches, oldest rows first, and purging what was archived long enough ago. */
module ArchiveMixin {
  import opened Collections
  import opened Wrappers

  datatype Stamp = Stamp(at: int, batch: string)

  datatype Row = Row(id: string, createdAt: int, archived: Option<Stamp>)

  /** What `recordArchival` keeps of a batch. */
  datatype Batch = Batch(id: string, recordCount: nat)

  const DEFAULT_BATCH_SIZE := 10000
  const DEFAULT_DELAY_DAYS := 7
  const DAY := 86400000

  // ---------- The query ----------

  predicate Eligible(r: Row, cutoff: int) {
    r.createdAt < cutoff && r.archived == None
  }

  function Waiting(rows: seq<Row>, cutoff: int): seq<Row> {
    if rows == [] then []
    else if Eligible(rows[0], cutoff) then [rows[0]] + Waiting(rows[1..], cutoff)
    else Waiting(rows[1..], cutoff)
  }

  function Insert(r: Row, sorted: seq<Row>): seq<Row> {
    if sorted == [] || r.createdAt <= sorted[0].createdAt then [r] + sorted else [sorted[0]] + Insert(r, sorted[1..])
  }

  /** ORDER BY created_at; rows of one instant keep the table's order. */
  function Sort(rows: seq<Row>): seq<Row> {
    if rows == [] then [] else Insert(rows[0], Sort(rows[1..]))
  }

  /** All rows that are due, oldest first. */
  function Backlog(rows: seq<Row>, cutoff: int): seq<Row> {
    Sort(Waiting(rows, cutoff))
  }

  /** `options.batchSize || 10000` */
  function Limit(batchSize: Option<nat>): (n: nat)
    ensures n >= 1
  {
    if batchSize == None || batchSize == Some(0) then DEFAULT_BATCH_SIZE else batchSize.value
  }

  function Take<T>(s: seq<T>, n: nat): seq<T> {
    if |s| <= n then s else s[..n]
  }

  function Drop<T>(s: seq<T>, n: nat): seq<T> {
    if |s| <= n then [] else s[n..]
  }

  function Records(rows: seq<Row>, cutoff: int, limit: nat): seq<Row> {
    Take(Backlog(rows, cutoff), limit)
  }

  function Ids(rows: seq<Row>): set<string> {
    set r | r in rows :: r.id
  }

  // ---------- The statements ----------

  /** UPDATE ... WHERE id = ANY(ids) */
  function Stamped(rows: seq<Row>, ids: set<string>, stamp: Stamp): seq<Row> {
    if rows == [] then []
    else [if rows[0].id in ids then rows[0].(archived := Some(stamp)) else rows[0]] + Stamped(rows[1..], ids, stamp)
  }

  /** `options.delayDays || 7` */
  function Delay(delayDays: Option<nat>): nat {
    if delayDays == None || delayDays == Some(0) then DEFAULT_DELAY_DAYS else delayDays.value
  }

  predicate Purgeable(r: Row, now: int, delay: nat, batch: Option<string>) {
    && r.archived.Some? && r.archived.value.at < now - delay * DAY
    && (batch.Some? && batch.value != "" ==> r.archived.value.batch == batch.value)
  }

  function Kept(rows: seq<Row>, now: int, delay: nat, batch: Option<string>): seq<Row> {
    if rows == [] then []
    else if Purgeable(rows[0], now, delay, batch) then Kept(rows[1..], now, delay, batch)
    else [rows[0]] + Kept(rows[1..], now, delay, batch)
  }

  function Removed(rows: seq<Row>, now: int, delay: nat, batch: Option<string>): seq<Row> {
    if rows == [] then []
    else if Purgeable(rows[0], now, delay, batch) then [rows[0]] + Removed(rows[1..], now, delay, batch)
    else Removed(rows[1..], now, delay, batch)
  }

  /** The table, the batch log, and, for the statements below only, the rows purged so far. */
  datatype State = State(rows: seq<Row>, log: seq<Batch>, purged: seq<Row>)

  function Archived(s: State, cutoff: int, batchSize: Option<nat>, now: int, batchId: string): State {
    var records := Records(s.rows, cutoff, Limit(batchSize));
    if records == [] then s
    else s.(rows := Stamped(s.rows, Ids(records), Stamp(now, batchId)), log := s.log + [Batch(batchId, |records|)])
  }

  function Purged(s: State, now: int, delayDays: Option<nat>, batch: Option<string>): State {
    s.(rows := Kept(s.rows, now, Delay(delayDays), batch),
       purged := s.purged + Removed(s.rows, now, Delay(delayDays), batch))
  }

  // ---------- Sorting, ids and removal ----------

  ghost predicate UniqueIds(rows: seq<Row>) {
    rows == [] || (rows[0].id !in Ids(rows[1..]) && UniqueIds(rows[1..]))
  }

  ghost predicate Sorted(rows: seq<Row>) {
    |rows| <= 1 || (rows[0].createdAt <= rows[1].createdAt && Sorted(rows[1..]))
  }

  function Without(rows: seq<Row>, ids: set<string>): seq<Row> {
    if rows == [] then []
    else if rows[0].id in ids then Without(rows[1..], ids)
    else [rows[0]] + Without(rows[1..], ids)
  }

  lemma IdsCons(r: Row, rows: seq<Row>)
    ensures Ids([r] + rows) == {r.id} + Ids(rows)
  {
    assert r in [r] + rows;
    forall x | x in rows ensures x in [r] + rows {}
  }

  lemma {:induction false} InsertIds(r: Row, sorted: seq<Row>)
    ensures Ids(Insert(r, sorted)) == {r.id} + Ids(sorted)
    ensures UniqueIds(sorted) && r.id !in Ids(sorted) ==> UniqueIds(Insert(r, sorted))
    ensures |Insert(r, sorted)| == |sorted| + 1
  {
    if sorted == [] || r.createdAt <= sorted[0].createdAt {
      IdsCons(r, sorted);
      assert ([r] + sorted)[1..] == sorted;
    } else {
      var rest := sorted[1..];
      InsertIds(r, rest);
      IdsCons(sorted[0], Insert(r, rest));
      assert sorted == [sorted[0]] + rest;
      IdsCons(sorted[0], rest);
      assert ([sorted[0]] + Insert(r, rest))[1..] == Insert(r, rest);
    }
  }

  lemma {:induction false} InsertSorted(r: Row, sorted: seq<Row>)
    requires Sorted(sorted)
    ensures Sorted(Insert(r, sorted))
  {
    if sorted == [] || r.createdAt <= sorted[0].createdAt {
      assert ([r] + sorted)[1..] == sorted;
    } else {
      InsertSorted(r, sorted[1..]);
      assert ([sorted[0]] + Insert(r, sorted[1..]))[1..] == Insert(r, sorted[1..]);
    }
  }

  lemma {:induction false} SortFacts(rows: seq<Row>)
    ensures Sorted(Sort(rows)) && Ids(Sort(rows)) == Ids(rows) && |Sort(rows)| == |rows|
    ensures UniqueIds(rows) ==> UniqueIds(Sort(rows))
  {
    if rows != [] {
      var rest := rows[1..];
      SortFacts(rest);
      InsertSorted(rows[0], Sort(rest));
      InsertIds(rows[0], Sort(rest));
      assert rows == [rows[0]] + rest;
      IdsCons(rows[0], rest);
    }
  }

  lemma {:induction false} InsertFirst(r: Row, rows: seq<Row>, ids: set<string>)
    requires Sorted(rows) && (rows == [] || r.createdAt <= rows[0].createdAt)
    ensures Insert(r, Without(rows, ids)) == [r] + Without(rows, ids)
  {
    if rows != [] && rows[0].id in ids {
      InsertFirst(r, rows[1..], ids);
    }
  }

  lemma {:induction false} WithoutInsert(r: Row, rows: seq<Row>, ids: set<string>)
    requires Sorted(rows)
    ensures Without(Insert(r, rows), ids) == if r.id in ids then Without(rows, ids) else Insert(r, Without(rows, ids))
  {
    if rows == [] || r.createdAt <= rows[0].createdAt {
      assert ([r] + rows)[1..] == rows;
      InsertFirst(r, rows, ids);
    } else {
      WithoutInsert(r, rows[1..], ids);
      var rest := Insert(r, rows[1..]);
      assert ([rows[0]] + rest)[1..] == rest;
      if rows[0].id !in ids {
        assert Without(rows, ids) == [rows[0]] + Without(rows[1..], ids);
        assert Without(rows, ids)[1..] == Without(rows[1..], ids);
      }
    }
  }

  /** Removing rows and sorting commute. */
  lemma {:induction false} SortWithout(rows: seq<Row>, ids: set<string>)
    ensures Sort(Without(rows, ids)) == Without(Sort(rows), ids)
  {
    if rows != [] {
      SortWithout(rows[1..], ids);
      SortFacts(rows[1..]);
      WithoutInsert(rows[0], Sort(rows[1..]), ids);
      if rows[0].id !in ids {
        assert ([rows[0]] + Without(rows[1..], ids))[1..] == Without(rows[1..], ids);
      }
    }
  }

  lemma {:induction false} WaitingFacts(rows: seq<Row>, cutoff: int)
    ensures Ids(Waiting(rows, cutoff)) <= Ids(rows)
    ensures UniqueIds(rows) ==> UniqueIds(Waiting(rows, cutoff))
    ensures forall r | r in Waiting(rows, cutoff) :: r in rows && Eligible(r, cutoff)
  {
    if rows != [] {
      var rest := rows[1..];
      WaitingFacts(rest, cutoff);
      assert rows == [rows[0]] + rest;
      IdsCons(rows[0], rest);
      if Eligible(rows[0], cutoff) {
        IdsCons(rows[0], Waiting(rest, cutoff));
        assert Waiting(rows, cutoff)[1..] == Waiting(rest, cutoff);
      }
    }
  }

  /** A stamped row waits no longer; the others wait as before. */
  lemma {:induction false} WaitingAfterStamp(rows: seq<Row>, ids: set<string>, stamp: Stamp, cutoff: int)
    ensures Waiting(Stamped(rows, ids, stamp), cutoff) == Without(Waiting(rows, cutoff), ids)
  {
    if rows != [] {
      WaitingAfterStamp(rows[1..], ids, stamp, cutoff);
      var after := Stamped(rows, ids, stamp);
      assert after[1..] == Stamped(rows[1..], ids, stamp);
      if Eligible(rows[0], cutoff) {
        assert Waiting(rows, cutoff)[1..] == Waiting(rows[1..], cutoff);
      }
    }
  }

  lemma {:induction false} WithoutAll(rows: seq<Row>, ids: set<string>)
    requires Ids(rows) !! ids
    ensures Without(rows, ids) == rows
  {
    if rows != [] {
      assert rows == [rows[0]] + rows[1..];
      IdsCons(rows[0], rows[1..]);
      WithoutAll(rows[1..], ids);
    }
  }

  lemma {:induction false} WithoutTakenMore(rows: seq<Row>, n: nat, more: set<string>)
    requires UniqueIds(rows) && Ids(rows) !! more
    ensures Without(rows, more + Ids(Take(rows, n))) == Drop(rows, n)
    decreases |rows|
  {
    if rows == [] || n == 0 {
      assert Take(rows, n) == [];
      assert more + Ids(Take(rows, n)) == more;
      WithoutAll(rows, more);
    } else {
      var r, rest := rows[0], rows[1..];
      assert rows == [r] + rest;
      IdsCons(r, rest);
      assert Take(rows, n) == [r] + Take(rest, n - 1);
      IdsCons(r, Take(rest, n - 1));
      WithoutTakenMore(rest, n - 1, more + {r.id});
      assert more + Ids(Take(rows, n)) == more + {r.id} + Ids(Take(rest, n - 1));
      assert Drop(rows, n) == Drop(rest, n - 1);
    }
  }

  /** Taking out the first `n` rows by id leaves the rest. */
  lemma {:induction false} WithoutTaken(rows: seq<Row>, n: nat)
    requires UniqueIds(rows)
    ensures Without(rows, Ids(Take(rows, n))) == Drop(rows, n)
  {
    WithoutTakenMore(rows, n, {});
    assert {} + Ids(Take(rows, n)) == Ids(Take(rows, n));
  }

  // ---------- What is in the backlog ----------

  /** Created before the cutoff, and not archived. */
  ghost predicate IsDue(r: Row, cutoff: int) {
    r.createdAt < cutoff && r.archived == None
  }

  lemma {:induction false} InsertMultiset(r: Row, sorted: seq<Row>)
    ensures multiset(Insert(r, sorted)) == multiset{r} + multiset(sorted)
  {
    if !(sorted == [] || r.createdAt <= sorted[0].createdAt) {
      InsertMultiset(r, sorted[1..]);
      assert sorted == [sorted[0]] + sorted[1..];
    }
  }

  lemma {:induction false} SortMultiset(rows: seq<Row>)
    ensures multiset(Sort(rows)) == multiset(rows)
  {
    if rows != [] {
      SortMultiset(rows[1..]);
      InsertMultiset(rows[0], Sort(rows[1..]));
      assert rows == [rows[0]] + rows[1..];
    }
  }

  lemma {:induction false} WaitingHolds(rows: seq<Row>, cutoff: int, r: Row)
    ensures multiset(Waiting(rows, cutoff))[r] == if IsDue(r, cutoff) then multiset(rows)[r] else 0
  {
    if rows != [] {
      WaitingHolds(rows[1..], cutoff, r);
      assert rows == [rows[0]] + rows[1..];
    }
  }

  /** The backlog holds every row that is due, as often as the table does, and no other. */
  lemma BacklogHolds(rows: seq<Row>, cutoff: int)
    ensures forall r :: multiset(Backlog(rows, cutoff))[r] == if IsDue(r, cutoff) then multiset(rows)[r] else 0
    ensures forall r :: r in Backlog(rows, cutoff) <==> r in rows && r.createdAt < cutoff && r.archived == None
  {
    SortMultiset(Waiting(rows, cutoff));
    forall r ensures multiset(Backlog(rows, cutoff))[r] == if IsDue(r, cutoff) then multiset(rows)[r] else 0 {
      WaitingHolds(rows, cutoff, r);
    }
    forall r ensures r in Backlog(rows, cutoff) <==> r in rows && IsDue(r, cutoff) {
      assert r in Backlog(rows, cutoff) <==> r in multiset(Backlog(rows, cutoff));
      assert r in rows <==> r in multiset(rows);
    }
  }

  lemma {:induction false} SortedMeans(rows: seq<Row>)
    requires Sorted(rows)
    ensures forall i, j | 0 <= i < j < |rows| :: rows[i].createdAt <= rows[j].createdAt
  {
    if |rows| > 1 {
      SortedMeans(rows[1..]);
      forall i, j | 0 <= i < j < |rows| ensures rows[i].createdAt <= rows[j].createdAt {
        assert rows[1..][0] == rows[1] && rows[1..][j - 1] == rows[j];
        if i > 0 {
          assert rows[1..][i - 1] == rows[i];
        }
      }
    }
  }

  // ---------- Draining the backlog ----------

  /** One call takes the oldest rows of the backlog and leaves exactly the others. */
  lemma CallTakesOldest(rows: seq<Row>, cutoff: int, limit: nat, stamp: Stamp)
    requires UniqueIds(rows)
    ensures Backlog(Stamped(rows, Ids(Records(rows, cutoff, limit)), stamp), cutoff)
         == Drop(Backlog(rows, cutoff), limit)
  {
    var ids := Ids(Records(rows, cutoff, limit));
    WaitingAfterStamp(rows, ids, stamp, cutoff);
    SortWithout(Waiting(rows, cutoff), ids);
    WaitingFacts(rows, cutoff);
    SortFacts(Waiting(rows, cutoff));
    WithoutTaken(Backlog(rows, cutoff), limit);
  }

  lemma {:induction false} StampKeepsIds(rows: seq<Row>, ids: set<string>, stamp: Stamp)
    ensures Ids(Stamped(rows, ids, stamp)) == Ids(rows) && (UniqueIds(rows) ==> UniqueIds(Stamped(rows, ids, stamp)))
    ensures |Stamped(rows, ids, stamp)| == |rows|
  {
    if rows != [] {
      var rest := rows[1..];
      StampKeepsIds(rest, ids, stamp);
      var after := Stamped(rows, ids, stamp);
      assert after == [after[0]] + Stamped(rest, ids, stamp) && after[1..] == Stamped(rest, ids, stamp);
      IdsCons(after[0], Stamped(rest, ids, stamp));
      assert rows == [rows[0]] + rest;
      IdsCons(rows[0], rest);
    }
  }

  /** The records of repeated calls with one cutoff and size, until a call finds nothing. */
  ghost function Drain(rows: seq<Row>, cutoff: int, limit: nat, stamps: nat -> Stamp, n: nat): seq<seq<Row>>
    requires UniqueIds(rows) && limit >= 1
    decreases |Backlog(rows, cutoff)|
  {
    var records := Records(rows, cutoff, limit);
    if records == [] then [] else
    var after := Stamped(rows, Ids(records), stamps(n));
    CallTakesOldest(rows, cutoff, limit, stamps(n));
    StampKeepsIds(rows, Ids(records), stamps(n));
    [records] + Drain(after, cutoff, limit, stamps, n + 1)
  }

  /** The table after these calls. */
  ghost function Drained(rows: seq<Row>, cutoff: int, limit: nat, stamps: nat -> Stamp, n: nat): seq<Row>
    requires UniqueIds(rows) && limit >= 1
    decreases |Backlog(rows, cutoff)|
  {
    var records := Records(rows, cutoff, limit);
    if records == [] then rows else
    CallTakesOldest(rows, cutoff, limit, stamps(n));
    StampKeepsIds(rows, Ids(records), stamps(n));
    Drained(Stamped(rows, Ids(records), stamps(n)), cutoff, limit, stamps, n + 1)
  }

  lemma {:induction false} DrainedLeavesNothing(rows: seq<Row>, cutoff: int, limit: nat, stamps: nat -> Stamp, n: nat)
    requires UniqueIds(rows) && limit >= 1
    ensures forall r <- Drained(rows, cutoff, limit, stamps, n) :: !IsDue(r, cutoff)
    decreases |Backlog(rows, cutoff)|
  {
    var records := Records(rows, cutoff, limit);
    if records == [] {
      BacklogHolds(rows, cutoff);
      forall r | r in rows ensures !IsDue(r, cutoff) {
        assert r !in Backlog(rows, cutoff);
      }
    } else {
      CallTakesOldest(rows, cutoff, limit, stamps(n));
      StampKeepsIds(rows, Ids(records), stamps(n));
      DrainedLeavesNothing(Stamped(rows, Ids(records), stamps(n)), cutoff, limit, stamps, n + 1);
    }
  }

  function Slices<T>(s: seq<T>, size: nat): seq<seq<T>>
    requires size >= 1
    decreases |s|
  {
    if s == [] then [] else [Take(s, size)] + Slices(Drop(s, size), size)
  }

  lemma {:induction false} SlicesPartition<T>(s: seq<T>, size: nat)
    requires size >= 1
    ensures Concat(Slices(s, size)) == s
    decreases |s|
  {
    if s != [] {
      var first, rest := Take(s, size), Drop(s, size);
      SlicesPartition(rest, size);
      assert ([first] + Slices(rest, size))[1..] == Slices(rest, size);
      assert s == first + rest;
    }
  }

  lemma {:induction false} Larger(a: nat, c: nat, b: nat)
    requires a > c
    ensures a * b >= c * b + b
    decreases a
  {
    assert a * b == (a - 1) * b + b;
    if a > c + 1 {
      Larger(a - 1, c, b);
    }
  }

  lemma QuotientIs(n: nat, b: nat, q: nat, r: nat)
    requires b >= 1 && n == q * b + r && r < b
    ensures n / b == q
  {
    var m := n / b;
    assert n == m * b + n % b;
    if m > q {
      Larger(m, q, b);
    } else if m < q {
      Larger(q, m, b);
    }
  }

  lemma DivideOnce(n: nat, b: nat)
    requires b >= 1 && n >= b
    ensures n / b == 1 + (n - b) / b
  {
    var q, r := (n - b) / b, (n - b) % b;
    assert n - b == q * b + r;
    QuotientIs(n, b, q + 1, r);
  }

  lemma CeilDivStep(a: nat, b: nat)
    requires a >= 1 && b >= 1
    ensures CeilDiv(a, b) == 1 + CeilDiv(if a <= b then 0 else a - b, b)
  {
    DivideOnce(a + b - 1, b);
    if a <= b {
      QuotientIs(b - 1, b, 0, b - 1);
      QuotientIs(a - 1, b, 0, a - 1);
    }
  }

  lemma {:induction false} SlicesLength<T>(s: seq<T>, size: nat)
    requires size >= 1
    ensures |Slices(s, size)| == CeilDiv(|s|, size)
    decreases |s|
  {
    if s == [] {
      QuotientIs(size - 1, size, 0, size - 1);
    } else {
      SlicesLength(Drop(s, size), size);
      CeilDivStep(|s|, size);
    }
  }

  lemma {:induction false} DrainIsSlices(rows: seq<Row>, cutoff: int, limit: nat, stamps: nat -> Stamp, n: nat)
    requires UniqueIds(rows) && limit >= 1
    ensures Drain(rows, cutoff, limit, stamps, n) == Slices(Backlog(rows, cutoff), limit)
    decreases |Backlog(rows, cutoff)|
  {
    var records := Records(rows, cutoff, limit);
    if records != [] {
      CallTakesOldest(rows, cutoff, limit, stamps(n));
      StampKeepsIds(rows, Ids(records), stamps(n));
      DrainIsSlices(Stamped(rows, Ids(records), stamps(n)), cutoff, limit, stamps, n + 1);
    }
  }

  /**
   * Repeated calls with one cutoff and batch size archive consecutive slices of
   * the backlog in creation order, and are done after as many calls as slices.
   */
  lemma RepeatedCallsEmptyTheBacklog(rows: seq<Row>, cutoff: int, batchSize: Option<nat>, stamps: nat -> Stamp)
    requires UniqueIds(rows)
    ensures var backlog, limit := Backlog(rows, cutoff), Limit(batchSize);
            var batches := Drain(rows, cutoff, limit, stamps, 0);
            && batches == Slices(backlog, limit) && Concat(batches) == backlog && Sorted(backlog)
            && |batches| == CeilDiv(|Waiting(rows, cutoff)|, limit)
    ensures var archived := Concat(Drain(rows, cutoff, Limit(batchSize), stamps, 0));
            && (forall r :: multiset(archived)[r] == if IsDue(r, cutoff) then multiset(rows)[r] else 0)
            && (forall i, j | 0 <= i < j < |archived| :: archived[i].createdAt <= archived[j].createdAt)
    ensures forall r <- Drained(rows, cutoff, Limit(batchSize), stamps, 0) :: !IsDue(r, cutoff)
  {
    BacklogHolds(rows, cutoff);
    DrainedLeavesNothing(rows, cutoff, Limit(batchSize), stamps, 0);
    DrainIsSlices(rows, cutoff, Limit(batchSize), stamps, 0);
    SlicesPartition(Backlog(rows, cutoff), Limit(batchSize));
    SlicesLength(Backlog(rows, cutoff), Limit(batchSize));
    SortFacts(Waiting(rows, cutoff));
    SortedMeans(Backlog(rows, cutoff));
  }

  // ---------- Stamps and counts over every run ----------

  predicate InBatch(r: Row, batch: string) {
    r.archived.Some? && r.archived.value.batch == batch
  }

  function CountIn(rows: seq<Row>, batch: string): nat {
    if rows == [] then 0 else (if InBatch(rows[0], batch) then 1 else 0) + CountIn(rows[1..], batch)
  }

  datatype Event =
    | Archive(cutoff: int, batchSize: Option<nat>, now: int, batchId: string)
    | Purge(now: int, delayDays: Option<nat>, batch: Option<string>)
    | Add(row: Row)

  ghost predicate Logged(log: seq<Batch>, batch: string) {
    exists b <- log :: b.id == batch
  }

  /** Batch ids and row ids are new. */
  ghost predicate Possible(s: State, e: Event) {
    match e
    case Archive(_, _, _, batchId) => !Logged(s.log, batchId)
    case Purge(_, _, _) => true
    case Add(row) => row.archived == None && row.id !in Ids(s.rows) && row.id !in Ids(s.purged)
  }

  function Next(s: State, e: Event): State {
    match e
    case Archive(cutoff, batchSize, now, batchId) => Archived(s, cutoff, batchSize, now, batchId)
    case Purge(now, delayDays, batch) => Purged(s, now, delayDays, batch)
    case Add(row) => s.(rows := s.rows + [row])
  }

  ghost predicate Run(s: State, events: seq<Event>, last: State)
    decreases |events|
  {
    if events == [] then last == s else Possible(s, events[0]) && Run(Next(s, events[0]), events[1..], last)
  }

  /** Each logged count is the number of rows stamped with the batch, live or purged; no other batch has rows. */
  ghost predicate Counted(s: State) {
    && UniqueIds(s.rows) && Ids(s.rows) !! Ids(s.purged)
    && (forall r | r in s.purged :: r.archived.Some?)
    && (forall b <- s.log :: b.recordCount == CountIn(s.rows, b.id) + CountIn(s.purged, b.id))
    && (forall batch | !Logged(s.log, batch) :: CountIn(s.rows, batch) + CountIn(s.purged, batch) == 0)
  }

  lemma {:induction false} CountConcat(a: seq<Row>, b: seq<Row>, batch: string)
    ensures CountIn(a + b, batch) == CountIn(a, batch) + CountIn(b, batch)
  {
    if a == [] {
      assert a + b == b;
    } else {
      assert (a + b)[1..] == a[1..] + b;
      CountConcat(a[1..], b, batch);
    }
  }

  lemma {:induction false} IdsConcat(a: seq<Row>, b: seq<Row>)
    ensures Ids(a + b) == Ids(a) + Ids(b)
  {
    if a == [] {
      assert a + b == b;
    } else {
      var rest := a[1..];
      IdsConcat(rest, b);
      assert a == [a[0]] + rest && a + b == [a[0]] + (rest + b);
      IdsCons(a[0], rest);
      IdsCons(a[0], rest + b);
    }
  }

  lemma {:induction false} UniqueIdsConcat(a: seq<Row>, b: seq<Row>)
    requires UniqueIds(a) && UniqueIds(b) && Ids(a) !! Ids(b)
    ensures UniqueIds(a + b)
  {
    if a == [] {
      assert a + b == b;
    } else {
      var rest := a[1..];
      assert a == [a[0]] + rest;
      IdsCons(a[0], rest);
      UniqueIdsConcat(rest, b);
      IdsConcat(rest, b);
      assert (a + b)[1..] == rest + b && (a + b)[0] == a[0];
    }
  }

  lemma {:induction false} PurgeSplitsIds(rows: seq<Row>, now: int, delay: nat, batch: Option<string>)
    ensures var kept, removed := Kept(rows, now, delay, batch), Removed(rows, now, delay, batch);
            && Ids(kept) + Ids(removed) == Ids(rows)
            && (UniqueIds(rows) ==> UniqueIds(kept) && Ids(kept) !! Ids(removed))
  {
    if rows != [] {
      var r, rest := rows[0], rows[1..];
      var kept, removed := Kept(rest, now, delay, batch), Removed(rest, now, delay, batch);
      PurgeSplitsIds(rest, now, delay, batch);
      assert rows == [r] + rest;
      IdsCons(r, rest);
      if Purgeable(r, now, delay, batch) {
        IdsCons(r, removed);
      } else {
        IdsCons(r, kept);
        assert ([r] + kept)[1..] == kept;
      }
    }
  }

  lemma {:induction false} PurgeSplitsRows(rows: seq<Row>, now: int, delay: nat, batch: Option<string>, r: Row)
    ensures r in Kept(rows, now, delay, batch) <==> r in rows && !Purgeable(r, now, delay, batch)
    ensures r in Removed(rows, now, delay, batch) <==> r in rows && Purgeable(r, now, delay, batch)
  {
    if rows != [] {
      PurgeSplitsRows(rows[1..], now, delay, batch, r);
      assert rows == [rows[0]] + rows[1..];
    }
  }

  lemma {:induction false} PurgeSplitsCounts(rows: seq<Row>, now: int, delay: nat, batch: Option<string>, b: string)
    ensures CountIn(Kept(rows, now, delay, batch), b) + CountIn(Removed(rows, now, delay, batch), b) == CountIn(rows, b)
  {
    if rows != [] {
      var r, rest := rows[0], rows[1..];
      var kept, removed := Kept(rest, now, delay, batch), Removed(rest, now, delay, batch);
      PurgeSplitsCounts(rest, now, delay, batch, b);
      assert ([r] + removed)[1..] == removed && ([r] + kept)[1..] == kept;
    }
  }

  /** A purge splits the table and changes no row. */
  lemma PurgeSplits(rows: seq<Row>, now: int, delay: nat, batch: Option<string>)
    ensures var kept, removed := Kept(rows, now, delay, batch), Removed(rows, now, delay, batch);
            && Ids(kept) + Ids(removed) == Ids(rows)
            && (UniqueIds(rows) ==> UniqueIds(kept) && Ids(kept) !! Ids(removed))
            && (forall b :: CountIn(kept, b) + CountIn(removed, b) == CountIn(rows, b))
            && (forall r :: r in kept <==> r in rows && !Purgeable(r, now, delay, batch))
            && (forall r :: r in removed <==> r in rows && Purgeable(r, now, delay, batch))
  {
    var kept, removed := Kept(rows, now, delay, batch), Removed(rows, now, delay, batch);
    PurgeSplitsIds(rows, now, delay, batch);
    forall b ensures CountIn(kept, b) + CountIn(removed, b) == CountIn(rows, b) {
      PurgeSplitsCounts(rows, now, delay, batch, b);
    }
    forall r
      ensures r in kept <==> r in rows && !Purgeable(r, now, delay, batch)
      ensures r in removed <==> r in rows && Purgeable(r, now, delay, batch)
    {
      PurgeSplitsRows(rows, now, delay, batch, r);
    }
  }

  /** How many rows a stamp reaches, when it reaches only unstamped ones. */
  function Reached(rows: seq<Row>, ids: set<string>): nat {
    if rows == [] then 0 else (if rows[0].id in ids then 1 else 0) + Reached(rows[1..], ids)
  }

  lemma {:induction false} StampCounts(rows: seq<Row>, ids: set<string>, stamp: Stamp, batch: string)
    requires forall r | r in rows && r.id in ids :: r.archived == None
    ensures CountIn(Stamped(rows, ids, stamp), batch)
         == CountIn(rows, batch) + (if batch == stamp.batch then Reached(rows, ids) else 0)
  {
    if rows != [] {
      assert rows[0] in rows && forall r | r in rows[1..] :: r in rows;
      StampCounts(rows[1..], ids, stamp, batch);
      assert Stamped(rows, ids, stamp)[1..] == Stamped(rows[1..], ids, stamp);
    }
  }

  lemma {:induction false} ReachedIgnores(rows: seq<Row>, ids: set<string>, id: string)
    requires id !in Ids(rows)
    ensures Reached(rows, ids) == Reached(rows, ids - {id})
  {
    if rows != [] {
      assert rows == [rows[0]] + rows[1..];
      IdsCons(rows[0], rows[1..]);
      ReachedIgnores(rows[1..], ids, id);
    }
  }

  /** Every id of the set reaches one row. */
  lemma {:induction false} ReachedIsSize(rows: seq<Row>, ids: set<string>)
    requires UniqueIds(rows) && ids <= Ids(rows)
    ensures Reached(rows, ids) == |ids|
    decreases |rows|
  {
    if rows == [] {
      assert ids == {};
    } else {
      var r, rest := rows[0], rows[1..];
      assert rows == [r] + rest;
      IdsCons(r, rest);
      ReachedIsSize(rest, ids - {r.id});
      ReachedIgnores(rest, ids, r.id);
    }
  }

  lemma {:induction false} UniqueIdsSize(rows: seq<Row>)
    requires UniqueIds(rows)
    ensures |Ids(rows)| == |rows|
  {
    if rows != [] {
      assert rows == [rows[0]] + rows[1..];
      IdsCons(rows[0], rows[1..]);
      UniqueIdsSize(rows[1..]);
    }
  }

  lemma {:induction false} InsertMembers(x: Row, sorted: seq<Row>, r: Row)
    ensures r in Insert(x, sorted) <==> r == x || r in sorted
  {
    if !(sorted == [] || x.createdAt <= sorted[0].createdAt) {
      InsertMembers(x, sorted[1..], r);
    }
  }

  lemma {:induction false} SortMembers(rows: seq<Row>, r: Row)
    ensures r in Sort(rows) <==> r in rows
  {
    if rows != [] {
      SortMembers(rows[1..], r);
      InsertMembers(rows[0], Sort(rows[1..]), r);
    }
  }

  lemma {:induction false} UniquePrefix(rows: seq<Row>, n: nat)
    requires UniqueIds(rows)
    ensures UniqueIds(Take(rows, n)) && Ids(Take(rows, n)) <= Ids(rows)
    decreases |rows|
  {
    if rows != [] && n > 0 {
      var r, rest := rows[0], rows[1..];
      UniquePrefix(rest, n - 1);
      assert Take(rows, n) == [r] + Take(rest, n - 1) && rows == [r] + rest;
      assert ([r] + Take(rest, n - 1))[1..] == Take(rest, n - 1);
      IdsCons(r, rest);
      IdsCons(r, Take(rest, n - 1));
    }
  }

  /** The records of a call are distinct rows of the table that carry no stamp. */
  lemma RecordsAreUnstamped(rows: seq<Row>, cutoff: int, limit: nat)
    requires UniqueIds(rows)
    ensures var records := Records(rows, cutoff, limit);
            && Ids(records) <= Ids(rows) && |Ids(records)| == |records|
            && (forall r | r in records :: r in rows && Eligible(r, cutoff))
  {
    var waiting := Waiting(rows, cutoff);
    WaitingFacts(rows, cutoff);
    SortFacts(waiting);
    UniquePrefix(Sort(waiting), limit);
    UniqueIdsSize(Records(rows, cutoff, limit));
    forall r | r in Records(rows, cutoff, limit) ensures r in rows && Eligible(r, cutoff) {
      SortMembers(waiting, r);
    }
  }

  lemma {:induction false} SameIdSameRow(rows: seq<Row>, a: Row, b: Row)
    requires UniqueIds(rows) && a in rows && b in rows && a.id == b.id
    ensures a == b
  {
    var rest := rows[1..];
    if a in rest && b in rest {
      SameIdSameRow(rest, a, b);
    } else {
      assert a in rest ==> a.id in Ids(rest);
      assert b in rest ==> b.id in Ids(rest);
    }
  }

  lemma ArchiveKeepsCounted(s: State, e: Event)
    requires Counted(s) && e.Archive? && Possible(s, e)
    ensures Counted(Next(s, e))
  {
    var records := Records(s.rows, e.cutoff, Limit(e.batchSize));
    var ids, stamp, t := Ids(records), Stamp(e.now, e.batchId), Next(s, e);
    RecordsAreUnstamped(s.rows, e.cutoff, Limit(e.batchSize));
    StampKeepsIds(s.rows, ids, stamp);
    forall r | r in s.rows && r.id in ids ensures r.archived == None {
      var q :| q in records && q.id == r.id;
      SameIdSameRow(s.rows, r, q);
    }
    ReachedIsSize(s.rows, ids);
    if records != [] {
      forall batch
        ensures CountIn(t.rows, batch) == CountIn(s.rows, batch) + if batch == e.batchId then |records| else 0
      {
        StampCounts(s.rows, ids, stamp, batch);
      }
      forall batch ensures Logged(t.log, batch) <==> Logged(s.log, batch) || batch == e.batchId {
        assert Batch(e.batchId, |records|) in t.log;
        if Logged(s.log, batch) {
          var b :| b in s.log && b.id == batch;
          assert b in t.log;
        }
      }
      forall b | b in t.log ensures b.recordCount == CountIn(t.rows, b.id) + CountIn(t.purged, b.id) {
        if b in s.log {
          assert Logged(s.log, b.id);
        }
      }
    }
  }

  lemma PurgeKeepsCounted(s: State, e: Event)
    requires Counted(s) && e.Purge?
    ensures Counted(Next(s, e))
  {
    var delay, t := Delay(e.delayDays), Next(s, e);
    var removed := Removed(s.rows, e.now, delay, e.batch);
    PurgeSplits(s.rows, e.now, delay, e.batch);
    IdsConcat(s.purged, removed);
    forall batch
      ensures CountIn(t.rows, batch) + CountIn(t.purged, batch) == CountIn(s.rows, batch) + CountIn(s.purged, batch)
    {
      CountConcat(s.purged, removed, batch);
    }
  }

  lemma AddKeepsCounted(s: State, e: Event)
    requires Counted(s) && e.Add? && Possible(s, e)
    ensures Counted(Next(s, e))
  {
    IdsConcat(s.rows, [e.row]);
    IdsCons(e.row, []);
    assert [e.row] + [] == [e.row] && Ids([e.row]) == {e.row.id} && UniqueIds([e.row]);
    UniqueIdsConcat(s.rows, [e.row]);
    forall batch ensures CountIn(s.rows + [e.row], batch) == CountIn(s.rows, batch) {
      CountConcat(s.rows, [e.row], batch);
      assert CountIn([e.row], batch) == 0 + CountIn([], batch);
    }
  }

  /** After any run, what was recorded of each batch is what was stamped with its id. */
  lemma {:induction false} CountsStayExact(s: State, events: seq<Event>, last: State)
    requires Counted(s) && Run(s, events, last)
    ensures Counted(last)
    decreases |events|
  {
    if events != [] {
      match events[0] {
        case Archive(_, _, _, _) => ArchiveKeepsCounted(s, events[0]);
        case Purge(_, _, _) => PurgeKeepsCounted(s, events[0]);
        case Add(_) => AddKeepsCounted(s, events[0]);
      }
      CountsStayExact(Next(s, events[0]), events[1..], last);
    }
  }

  lemma {:induction false} StampLeaves(rows: seq<Row>, ids: set<string>, stamp: Stamp, r: Row)
    requires r in rows && r.id !in ids
    ensures r in Stamped(rows, ids, stamp)
  {
    if r != rows[0] {
      StampLeaves(rows[1..], ids, stamp, r);
    }
  }

  /** A stamp is given once: the stamped row stays as it is until it is purged, and is kept as it is then. */
  lemma {:induction false} StampsAreFinal(s: State, events: seq<Event>, last: State, r: Row)
    requires Counted(s) && Run(s, events, last)
    requires r.archived.Some? && (r in s.rows || r in s.purged)
    ensures r in last.rows || r in last.purged
    decreases |events|
  {
    if events != [] {
      var e := events[0];
      CountsStayExact(s, [e], Next(s, e));
      match e {
        case Archive(cutoff, batchSize, now, batchId) =>
          var records := Records(s.rows, cutoff, Limit(batchSize));
          RecordsAreUnstamped(s.rows, cutoff, Limit(batchSize));
          if r in s.rows {
            if r.id in Ids(records) {
              var q :| q in records && q.id == r.id;
              SameIdSameRow(s.rows, r, q);
            }
            StampLeaves(s.rows, Ids(records), Stamp(now, batchId), r);
          }
        case Purge(now, delayDays, batch) =>
          PurgeSplits(s.rows, now, Delay(delayDays), batch);
        case Add(_) =>
      }
      StampsAreFinal(Next(s, e), events[1..], last, r);
    }
  }

  /** A purge removes exactly the stamped rows past the delay, of the one batch if one is named. */
  lemma PurgeRemovesOnlyDue(s: State, now: int, delayDays: Option<nat>, batch: Option<string>, r: Row)
    requires r in s.rows
    ensures var due := r.archived.Some? && r.archived.value.at < now - Delay(delayDays) * DAY
                       && (batch.Some? && batch.value != "" ==> InBatch(r, batch.value));
            && (r in Purged(s, now, delayDays, batch).rows <==> !due)
            && (due ==> r in Purged(s, now, delayDays, batch).purged)
  {
    PurgeSplits(s.rows, now, Delay(delayDays), batch);
  }

  // ---------- The table ----------

  lemma CallLeavesRest(s: State, cutoff: int, batchSize: Option<nat>, now: int, batchId: string)
    ensures var rows := Archived(s, cutoff, batchSize, now, batchId).rows;
            UniqueIds(s.rows) ==>
              UniqueIds(rows) && Backlog(rows, cutoff) == Drop(Backlog(s.rows, cutoff), Limit(batchSize))
  {
    var records, stamp := Records(s.rows, cutoff, Limit(batchSize)), Stamp(now, batchId);
    if UniqueIds(s.rows) {
      StampKeepsIds(s.rows, Ids(records), stamp);
      CallTakesOldest(s.rows, cutoff, Limit(batchSize), stamp);
    }
  }

  lemma {:induction false} StampedAt(rows: seq<Row>, ids: set<string>, stamp: Stamp)
    ensures |Stamped(rows, ids, stamp)| == |rows|
    ensures forall k | 0 <= k < |rows| ::
              Stamped(rows, ids, stamp)[k] == if rows[k].id in ids then rows[k].(archived := Some(stamp)) else rows[k]
  {
    if rows != [] {
      StampedAt(rows[1..], ids, stamp);
    }
  }

  /** In how many places two tables of one length differ. */
  ghost function Changes(a: seq<Row>, b: seq<Row>): nat
    requires |a| == |b|
  {
    if a == [] then 0 else (if a[0] != b[0] then 1 else 0) + Changes(a[1..], b[1..])
  }

  lemma {:induction false} StampChanges(rows: seq<Row>, ids: set<string>, stamp: Stamp)
    requires forall r | r in rows && r.id in ids :: r.archived == None
    ensures |Stamped(rows, ids, stamp)| == |rows|
    ensures Changes(rows, Stamped(rows, ids, stamp)) == Reached(rows, ids)
  {
    StampedAt(rows, ids, stamp);
    if rows != [] {
      assert rows[0] in rows && forall r | r in rows[1..] :: r in rows;
      StampChanges(rows[1..], ids, stamp);
      assert Stamped(rows, ids, stamp)[1..] == Stamped(rows[1..], ids, stamp);
    }
  }

  /**
   * `count` rows that were due are stamped and nothing else has changed; what is
   * due and left is left because the batch is full, and is no older than what it took.
   */
  ghost predicate BatchTaken(before: seq<Row>, after: seq<Row>, cutoff: int, size: nat, stamp: Stamp, count: nat) {
    && |after| == |before| && Changes(before, after) == count <= size
    && (forall k | 0 <= k < |before| && after[k] != before[k] ::
          before[k].createdAt < cutoff && before[k].archived == None
          && after[k] == before[k].(archived := Some(stamp)))
    && (forall k | 0 <= k < |before| && after[k] == before[k] ::
          before[k].createdAt < cutoff && before[k].archived == None ==>
            count == size && forall j | 0 <= j < |before| && after[j] != before[j] ::
                               before[j].createdAt <= before[k].createdAt)
  }

  lemma {:induction false} StampedNothing(rows: seq<Row>, stamp: Stamp)
    ensures Stamped(rows, Ids([]), stamp) == rows
  {
    if rows != [] {
      StampedNothing(rows[1..], stamp);
    }
  }

  lemma IdsMeanRows(rows: seq<Row>, some: seq<Row>)
    requires UniqueIds(rows) && forall r | r in some :: r in rows
    ensures forall r | r in rows :: r.id in Ids(some) <==> r in some
  {
    forall r | r in rows ensures r.id in Ids(some) <==> r in some {
      if r.id in Ids(some) {
        var q :| q in some && q.id == r.id;
        SameIdSameRow(rows, r, q);
      }
    }
  }

  lemma LeftIsYounger(s: seq<Row>, n: nat, r: Row, q: Row)
    requires Sorted(s) && r in s && r !in Take(s, n) && q in Take(s, n)
    ensures |Take(s, n)| == n && q.createdAt <= r.createdAt
  {
    SortedMeans(s);
    var i :| 0 <= i < |s| && s[i] == r;
    assert forall k | 0 <= k < |Take(s, n)| :: Take(s, n)[k] == s[k];
    var j :| 0 <= j < |Take(s, n)| && Take(s, n)[j] == q;
  }

  lemma CallTakesBatch(rows: seq<Row>, cutoff: int, size: nat, stamp: Stamp)
    requires UniqueIds(rows) && size >= 1
    ensures var records := Records(rows, cutoff, size);
            BatchTaken(rows, Stamped(rows, Ids(records), stamp), cutoff, size, stamp, |records|)
  {
    var backlog, records := Backlog(rows, cutoff), Records(rows, cutoff, size);
    var after := Stamped(rows, Ids(records), stamp);
    RecordsAreUnstamped(rows, cutoff, size);
    IdsMeanRows(rows, records);
    StampedAt(rows, Ids(records), stamp);
    StampChanges(rows, Ids(records), stamp);
    ReachedIsSize(rows, Ids(records));
    BacklogHolds(rows, cutoff);
    SortFacts(Waiting(rows, cutoff));
    forall k | 0 <= k < |rows| ensures after[k] != rows[k] <==> rows[k] in records {
      assert rows[k] in rows;
    }
    forall k | 0 <= k < |rows| && after[k] == rows[k] && IsDue(rows[k], cutoff)
      ensures |records| == size
      ensures forall j | 0 <= j < |rows| && after[j] != rows[j] :: rows[j].createdAt <= rows[k].createdAt
    {
      assert rows[k] in backlog && rows[k] !in records;
      assert records != [] by {
        assert backlog != [];
      }
      LeftIsYounger(backlog, size, rows[k], records[0]);
      forall j | 0 <= j < |rows| && after[j] != rows[j] ensures rows[j].createdAt <= rows[k].createdAt {
        LeftIsYounger(backlog, size, rows[k], rows[j]);
      }
    }
  }

  lemma {:induction false} PurgeLengths(rows: seq<Row>, now: int, delay: nat, batch: Option<string>)
    ensures |Kept(rows, now, delay, batch)| + |Removed(rows, now, delay, batch)| == |rows|
  {
    if rows != [] {
      PurgeLengths(rows[1..], now, delay, batch);
    }
  }

  class Table {
    var rows: seq<Row>
    var log: seq<Batch>
    ghost var purged: seq<Row>

    ghost function View(): State
      reads this
    {
      State(rows, log, purged)
    }

    constructor (rows: seq<Row>)
      ensures View() == State(rows, [], [])
    {
      this.rows, log, purged := rows, [], [];
    }

    method ArchiveOlderThan(cutoff: int, batchSize: Option<nat>, now: int, batchId: string) returns (archivedCount: nat)
      modifies this
      ensures View() == Next(old(View()), Archive(cutoff, batchSize, now, batchId))
      ensures archivedCount == |Records(old(rows), cutoff, Limit(batchSize))|
      ensures UniqueIds(old(rows)) ==>
                UniqueIds(rows) && Backlog(rows, cutoff) == Drop(Backlog(old(rows), cutoff), Limit(batchSize))
      ensures UniqueIds(old(rows)) ==>
                var size := if batchSize == None || batchSize == Some(0) then 10000 else batchSize.value;
                BatchTaken(old(rows), rows, cutoff, size, Stamp(now, batchId), archivedCount)
      ensures log == (if archivedCount == 0 then old(log) else old(log) + [Batch(batchId, archivedCount)])
      ensures purged == old(purged)
    {
      var records := Records(rows, cutoff, Limit(batchSize));
      CallLeavesRest(View(), cutoff, batchSize, now, batchId);
      if UniqueIds(rows) {
        CallTakesBatch(rows, cutoff, Limit(batchSize), Stamp(now, batchId));
        StampedNothing(rows, Stamp(now, batchId));
      }
      archivedCount := |records|;
      if archivedCount == 0 {
        return;
      }
      rows := Stamped(rows, Ids(records), Stamp(now, batchId));
      log := log + [Batch(batchId, |records|)];
    }

    method PurgeArchived(now: int, delayDays: Option<nat>, batch: Option<string>) returns (count: nat)
      modifies this
      ensures View() == Next(old(View()), Purge(now, delayDays, batch))
      ensures |rows| + count == |old(rows)|
      ensures forall r :: r in rows <==> r in old(rows) && !Purgeable(r, now, Delay(delayDays), batch)
      ensures var days := if delayDays == None || delayDays == Some(0) then 7 else delayDays.value;
              forall r :: r in rows <==>
                r in old(rows) && !(&& r.archived.Some? && r.archived.value.at < now - days * 86400000
                                    && (batch == None || batch == Some("") || batch == Some(r.archived.value.batch)))
      ensures log == old(log)
    {
      PurgeSplits(rows, now, Delay(delayDays), batch);
      PurgeLengths(rows, now, Delay(delayDays), batch);
      var removed := Removed(rows, now, Delay(delayDays), batch);
      count := |removed|;
      purged := purged + removed;
      rows := Kept(rows, now, Delay(delayDays), batch);
    }
  }
}
