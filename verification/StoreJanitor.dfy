/** Batched deletes and the collection built from them: any batch size, any interruption, one result. */
module StoreJanitor {

  import opened Options
  import opened StoreTables

  // ----- one bounded statement

  datatype Cut<T> = Cut(rest: seq<T>, removed: seq<T>)

  /** `DELETE ... WHERE rowid IN (SELECT rowid ... LIMIT n)`: the first n doomed rows go. */
  function Batch<T>(rows: seq<T>, doomed: T -> bool, limit: nat): Cut<T>
  {
    if rows == [] || limit == 0 then Cut(rows, [])
    else if doomed(rows[0]) then
      var tail := Batch(rows[1..], doomed, limit - 1);
      Cut(tail.rest, [rows[0]] + tail.removed)
    else
      var tail := Batch(rows[1..], doomed, limit);
      Cut([rows[0]] + tail.rest, tail.removed)
  }

  /** `rest` is `rows` with some doomed rows taken out, order kept. */
  ghost predicate Thinned<T>(rows: seq<T>, rest: seq<T>, doomed: T -> bool)
  {
    if rows == [] then rest == []
    else
      || (rest != [] && rest[0] == rows[0] && Thinned(rows[1..], rest[1..], doomed))
      || (doomed(rows[0]) && Thinned(rows[1..], rest, doomed))
  }

  ghost predicate AllIn<T>(part: seq<T>, rows: seq<T>)
  {
    forall x :: x in part ==> x in rows
  }

  lemma {:induction false} BatchShape<T>(rows: seq<T>, doomed: T -> bool, limit: nat)
    ensures var b := Batch(rows, doomed, limit);
            && Thinned(rows, b.rest, doomed) && |b.rest| + |b.removed| == |rows|
            && |b.removed| == (if Count(rows, doomed) < limit then Count(rows, doomed) else limit)
            && Count(b.rest, doomed) == Count(rows, doomed) - |b.removed|
    decreases |rows|
  {
    if rows == [] {
    } else if limit == 0 {
      ThinnedSelf(rows, doomed);
    } else if doomed(rows[0]) {
      BatchShape(rows[1..], doomed, limit - 1);
    } else {
      BatchShape(rows[1..], doomed, limit);
      var tail := Batch(rows[1..], doomed, limit).rest;
      assert ([rows[0]] + tail)[1..] == tail;
    }
  }

  ghost predicate AllDoomed<T>(rows: seq<T>, doomed: T -> bool)
  {
    forall x :: x in rows ==> doomed(x)
  }

  /** The rows are what is left and what was removed. */
  ghost predicate Parts<T>(rows: seq<T>, rest: seq<T>, removed: seq<T>)
  {
    AllIn(rest, rows) && AllIn(removed, rows) && forall x :: x in rows ==> x in rest || x in removed
  }

  lemma PartsCarry<T>(rows: seq<T>, rest: seq<T>, removed: seq<T>, b: Cut<T>, doomed: T -> bool)
    requires Parts(rows, rest, removed) && Parts(rest, b.rest, b.removed)
    requires AllDoomed(removed, doomed) && AllDoomed(b.removed, doomed)
    ensures Parts(rows, b.rest, removed + b.removed) && AllDoomed(removed + b.removed, doomed)
  {
  }

  /** A statement's rest and what it removed are the rows between them, and only doomed rows go. */
  lemma {:induction false} BatchParts<T>(rows: seq<T>, doomed: T -> bool, limit: nat)
    ensures var b := Batch(rows, doomed, limit); Parts(rows, b.rest, b.removed) && AllDoomed(b.removed, doomed)
    decreases |rows|
  {
    if rows != [] && limit > 0 {
      assert forall x :: x in rows <==> x == rows[0] || x in rows[1..];
      BatchParts(rows[1..], doomed, if doomed(rows[0]) then limit - 1 else limit);
    }
  }

  lemma {:induction false} ThinnedSelf<T>(rows: seq<T>, doomed: T -> bool)
    ensures Thinned(rows, rows, doomed)
  {
    if rows != [] { ThinnedSelf(rows[1..], doomed); }
  }

  lemma {:induction false} ThinnedAgain<T>(rows: seq<T>, mid: seq<T>, rest: seq<T>, doomed: T -> bool)
    requires Thinned(rows, mid, doomed) && Thinned(mid, rest, doomed)
    ensures Thinned(rows, rest, doomed)
    decreases |rows|
  {
    if rows != [] {
      if mid != [] && mid[0] == rows[0] && Thinned(rows[1..], mid[1..], doomed) {
        if rest != [] && rest[0] == mid[0] && Thinned(mid[1..], rest[1..], doomed) {
          ThinnedAgain(rows[1..], mid[1..], rest[1..], doomed);
        } else {
          ThinnedAgain(rows[1..], mid[1..], rest, doomed);
        }
      } else {
        ThinnedAgain(rows[1..], mid, rest, doomed);
      }
    }
  }

  lemma {:induction false} ThinnedIn<T>(rows: seq<T>, rest: seq<T>, doomed: T -> bool)
    requires Thinned(rows, rest, doomed)
    ensures AllIn(rest, rows)
    decreases |rows|
  {
    if rows != [] {
      assert forall x :: x in rows <==> x == rows[0] || x in rows[1..];
      if rest != [] && rest[0] == rows[0] && Thinned(rows[1..], rest[1..], doomed) {
        ThinnedIn(rows[1..], rest[1..], doomed);
        assert forall x :: x in rest <==> x == rest[0] || x in rest[1..];
      } else {
        ThinnedIn(rows[1..], rest, doomed);
      }
    }
  }

  lemma {:induction false} ThinnedKeyed(rows: seq<Snapshot>, rest: seq<Snapshot>, doomed: Snapshot -> bool)
    requires Thinned(rows, rest, doomed) && KeyedById(rows)
    ensures KeyedById(rest)
    decreases |rows|
  {
    if rows != [] {
      if rest != [] && rest[0] == rows[0] && Thinned(rows[1..], rest[1..], doomed) {
        ThinnedKeyed(rows[1..], rest[1..], doomed);
        ThinnedIn(rows[1..], rest[1..], doomed);
        if |rest| > 1 { LaterIdsGreater(rows, rest[1..][0]); }
      } else {
        ThinnedKeyed(rows[1..], rest, doomed);
      }
    }
  }

  /** What a wider predicate leaves is not changed by thinning. */
  lemma {:induction false} ThinnedWithout<T>(rows: seq<T>, rest: seq<T>, doomed: T -> bool, wider: T -> bool)
    requires Thinned(rows, rest, doomed) && forall x :: x in rows && doomed(x) ==> wider(x)
    ensures Without(rest, wider) == Without(rows, wider)
    decreases |rows|
  {
    if rows != [] {
      assert rows[0] in rows && forall x :: x in rows[1..] ==> x in rows;
      if rest != [] && rest[0] == rows[0] && Thinned(rows[1..], rest[1..], doomed) {
        ThinnedWithout(rows[1..], rest[1..], doomed, wider);
      } else {
        ThinnedWithout(rows[1..], rest, doomed, wider);
      }
    }
  }

  lemma {:induction false} NoneLeft<T>(rows: seq<T>, doomed: T -> bool)
    requires Count(rows, doomed) == 0
    ensures Without(rows, doomed) == rows && forall x :: x in rows ==> !doomed(x)
  {
    if rows != [] {
      NoneLeft(rows[1..], doomed);
      assert rows == [rows[0]] + rows[1..];
    }
  }

  lemma {:induction false} NoneDoomed<T>(rows: seq<T>, doomed: T -> bool)
    requires forall x :: x in rows ==> !doomed(x)
    ensures Without(rows, doomed) == rows
  {
    if rows != [] {
      assert rows[0] in rows && forall x :: x in rows[1..] ==> x in rows;
      NoneDoomed(rows[1..], doomed);
    }
  }

  // ----- the batch loop

  /** A family of statements throws only once the rows it removed have used up its budget. */
  predicate Spent(removed: int, budget: nat, left: nat, failed: bool)
  {
    if failed then budget <= removed else budget <= left + removed + 1
  }

  /**
   * Statements go on until one removes fewer rows than it might; `budget` of them succeed before one throws.
   * Without a throw, exactly the doomed rows are gone; with one, some of them are.
   */
  method DeleteInBatches<T>(rows: seq<T>, doomed: T -> bool, batchSize: nat, budget: nat)
    returns (rest: seq<T>, removed: seq<T>, left: nat, failed: bool)
    requires batchSize >= 1
    ensures Thinned(rows, rest, doomed) && |rest| + |removed| == |rows| && left <= budget
    ensures Parts(rows, rest, removed) && AllDoomed(removed, doomed)
    ensures !failed ==> rest == Without(rows, doomed) && forall x :: x in rest ==> !doomed(x)
    ensures !failed ==> |removed| == Count(rows, doomed)
    ensures Spent(|removed|, budget, left, failed)
  {
    rest, removed, left := rows, [], budget;
    ThinnedSelf(rows, doomed);
    assert Parts(rows, rows, []) && AllDoomed([], doomed);
    hide Parts, AllDoomed, Thinned;
    while true
      invariant Thinned(rows, rest, doomed) && |rest| + |removed| == |rows| && left <= budget
      invariant Parts(rows, rest, removed) && AllDoomed(removed, doomed) && budget <= left + |removed|
      decreases Count(rest, doomed)
    {
      if left == 0 { return rest, removed, 0, true; }
      left := left - 1;
      BatchShape(rest, doomed, batchSize);
      BatchParts(rest, doomed, batchSize);
      var batch := Batch(rest, doomed, batchSize);
      PartsCarry(rows, rest, removed, batch, doomed);
      ThinnedAgain(rows, rest, batch.rest, doomed);
      rest, removed := batch.rest, removed + batch.removed;
      if |batch.removed| < batchSize {
        NoneLeft(rest, doomed);
        ThinnedWithout(rows, rest, doomed, doomed);
        WithoutCounts(rows, doomed);
        return rest, removed, left, false;
      }
    }
  }

  // ----- each statement family keeps what a collection would leave

  lemma LeaseStage(c: Clock, t: Tables, rest: seq<Lease>, doomed: Lease -> bool)
    requires Thinned(t.leases, rest, doomed)
    requires forall e :: e in t.leases && doomed(e) ==> Dead(c, Current(c, t.snapshots), e)
    ensures Collected(c, t.(leases := rest)) == Collected(c, t)
  {
    var current := Current(c, t.snapshots);
    ThinnedWithout(t.leases, rest, doomed, (e: Lease) => Dead(c, current, e));
  }

  lemma DanglingAreDead(c: Clock, t: Tables)
    ensures forall e :: e in t.leases && !Backed(t.snapshots, e) ==> Dead(c, Current(c, t.snapshots), e)
  {
    forall e | e in t.leases && !Backed(t.snapshots, e)
      ensures Dead(c, Current(c, t.snapshots), e)
    {
      BackedByCurrent(c, t.snapshots, e);
    }
  }

  lemma LineageStage(c: Clock, t: Tables, rest: seq<Lineage>)
    requires Thinned(t.lineage, rest, (l: Lineage) => !HasId(t.snapshots, l.snapshot))
    ensures Collected(c, t.(lineage := rest)) == Collected(c, t)
  {
    var current := Current(c, t.snapshots);
    forall l | l in t.lineage && !HasId(t.snapshots, l.snapshot)
      ensures !HasId(current, l.snapshot)
    {
      IdsOfCurrent(c, t.snapshots, l.snapshot);
    }
    ThinnedWithout(t.lineage, rest, (l: Lineage) => !HasId(t.snapshots, l.snapshot),
                   (l: Lineage) => !HasId(current, l.snapshot));
  }

  /** Snapshots cascade to the lineage that references them. */
  function Cascade(lineage: seq<Lineage>, removed: seq<Snapshot>): seq<Lineage>
  {
    Without(lineage, (l: Lineage) => HasId(removed, l.snapshot))
  }

  lemma RemovedAreNotCurrent(c: Clock, snapshots: seq<Snapshot>, removed: seq<Snapshot>, id: nat)
    requires KeyedById(snapshots) && AllIn(removed, snapshots) && HasId(removed, id)
    requires forall s :: s in removed ==> ForeignSnapshot(c, s)
    ensures !HasId(Current(c, snapshots), id)
  {
    HasIdMeans(removed, id);
    HasIdMeans(Current(c, snapshots), id);
    var r :| r in removed && r.id == id;
    if HasId(Current(c, snapshots), id) {
      var s :| s in Current(c, snapshots) && s.id == id;
      WithoutAre(snapshots, (x: Snapshot) => ForeignSnapshot(c, x), s);
      OneSnapshotPerId(snapshots, r, s);
      assert false;
    }
  }

  lemma SnapshotStage(c: Clock, t: Tables, rest: seq<Snapshot>, removed: seq<Snapshot>)
    requires KeyedById(t.snapshots) && Thinned(t.snapshots, rest, (s: Snapshot) => ForeignSnapshot(c, s))
    requires AllIn(removed, t.snapshots) && forall s :: s in removed ==> ForeignSnapshot(c, s)
    ensures Collected(c, Tables(rest, Cascade(t.lineage, removed), t.leases)) == Collected(c, t)
  {
    var foreign := (s: Snapshot) => ForeignSnapshot(c, s);
    ThinnedWithout(t.snapshots, rest, foreign, foreign);
    var current := Current(c, t.snapshots);
    forall l | l in t.lineage && HasId(removed, l.snapshot)
      ensures !HasId(current, l.snapshot)
    {
      RemovedAreNotCurrent(c, t.snapshots, removed, l.snapshot);
    }
    WithoutTwice(t.lineage, (l: Lineage) => HasId(removed, l.snapshot), (l: Lineage) => !HasId(current, l.snapshot));
  }

  /** Nothing left to collect: the collection changes nothing. */
  lemma CleanIsCollected(c: Clock, t: Tables)
    requires forall s :: s in t.snapshots ==> !ForeignSnapshot(c, s)
    requires forall l :: l in t.lineage ==> HasId(t.snapshots, l.snapshot)
    requires forall e :: e in t.leases ==> !Dead(c, t.snapshots, e)
    ensures Collected(c, t) == t
  {
    NoneDoomed(t.snapshots, (s: Snapshot) => ForeignSnapshot(c, s));
    assert Current(c, t.snapshots) == t.snapshots;
    NoneDoomed(t.lineage, (l: Lineage) => !HasId(t.snapshots, l.snapshot));
    NoneDoomed(t.leases, (e: Lease) => Dead(c, t.snapshots, e));
  }

  /** A second collection at the same instant finds nothing. */
  lemma CollectedTwice(c: Clock, t: Tables)
    ensures Collected(c, Collected(c, t)) == Collected(c, t)
  {
    CollectedIsClean(c, t);
    CleanIsCollected(c, Collected(c, t));
  }

  // ----- what the statements report

  /** Lineage that references no snapshot. */
  function Orphans(snapshots: seq<Snapshot>, lineage: seq<Lineage>): nat
  {
    Count(lineage, (l: Lineage) => !HasId(snapshots, l.snapshot))
  }

  function Unbacked(snapshots: seq<Snapshot>, leases: seq<Lease>): nat
  {
    Count(leases, (e: Lease) => !Backed(snapshots, e))
  }

  function ExpiredBacked(c: Clock, snapshots: seq<Snapshot>, leases: seq<Lease>): nat
  {
    Count(Without(leases, (e: Lease) => !Backed(snapshots, e)), (e: Lease) => ExpiredActive(c, e)
          || ExpiredRetired(c, e))
  }

  /** The cascade takes no orphan and makes none. */
  lemma OrphansStay(snapshots: seq<Snapshot>, rest: seq<Snapshot>, removed: seq<Snapshot>, lineage: seq<Lineage>)
    requires Parts(snapshots, rest, removed)
    ensures Orphans(rest, Cascade(lineage, removed)) == Orphans(snapshots, lineage)
  {
    forall l | l in lineage
      ensures !HasId(snapshots, l.snapshot) <==> !HasId(removed, l.snapshot) && !HasId(rest, l.snapshot)
    {
      HasIdMeans(snapshots, l.snapshot);
      HasIdMeans(rest, l.snapshot);
      HasIdMeans(removed, l.snapshot);
    }
    CountAfter(lineage, (l: Lineage) => HasId(removed, l.snapshot), (l: Lineage) => !HasId(rest, l.snapshot),
               (l: Lineage) => !HasId(snapshots, l.snapshot));
  }

  /** The lease sweeps one after another, counted over the leases they all began with. */
  lemma LeaseCounts(c: Clock, leases: seq<Lease>, current: seq<Snapshot>)
    ensures var foreign := (e: Lease) => ForeignLease(c, e);
            var left := Without(leases, foreign);
            && Count(leases, foreign) + Unbacked(current, left)
               == Count(leases, (e: Lease) => ForeignLease(c, e) || !Backed(current, e))
            && ExpiredBacked(c, current, left)
               == Count(leases, (e: Lease) => !(ForeignLease(c, e) || !Backed(current, e))
                                              && (ExpiredActive(c, e) || ExpiredRetired(c, e)))
  {
    var foreign, unbacked := (e: Lease) => ForeignLease(c, e), (e: Lease) => !Backed(current, e);
    var expired := (e: Lease) => ExpiredActive(c, e) || ExpiredRetired(c, e);
    var kept := (e: Lease) => Backed(current, e) && (ExpiredActive(c, e) || ExpiredRetired(c, e));
    var left := Without(leases, foreign);
    CountEither(leases, foreign, unbacked, (e: Lease) => ForeignLease(c, e) || !Backed(current, e));
    CountAfter(left, unbacked, expired, kept);
    CountAfter(leases, foreign, kept, (e: Lease) => !(ForeignLease(c, e) || !Backed(current, e))
                                                    && (ExpiredActive(c, e) || ExpiredRetired(c, e)));
  }

  // ----- the program

  class Store {
    var snapshots: seq<Snapshot>
    var lineage: seq<Lineage>
    var leases: seq<Lease>

    ghost function Now(): Tables
      reads this
    {
      Tables(snapshots, lineage, leases)
    }

    constructor (t: Tables)
      ensures Now() == t
    {
      snapshots, lineage, leases := t.snapshots, t.lineage, t.leases;
    }

    method DeleteLeases(c: Clock, doomed: Lease -> bool, batchSize: nat, budget: nat)
      returns (deleted: nat, left: nat, failed: bool)
      requires batchSize >= 1
      requires forall e :: e in leases && doomed(e) ==> Dead(c, Current(c, snapshots), e)
      modifies this`leases
      ensures Collected(c, Now()) == Collected(c, old(Now()))
      ensures AllIn(leases, old(leases)) && (!failed ==> forall e :: e in leases ==> !doomed(e))
      ensures !failed ==> leases == Without(old(leases), doomed) && deleted == Count(old(leases), doomed)
      ensures Spent(|old(leases)| - |leases|, budget, left, failed)
    {
      var rest, removed;
      rest, removed, left, failed := DeleteInBatches(leases, doomed, batchSize, budget);
      LeaseStage(c, Now(), rest, doomed);
      leases, deleted := rest, |removed|;
    }

    method DeleteForeignSnapshots(c: Clock, batchSize: nat, budget: nat) returns (deleted: nat, left: nat, failed: bool)
      requires batchSize >= 1 && KeyedById(snapshots)
      modifies this`snapshots, this`lineage
      ensures Collected(c, Now()) == Collected(c, old(Now()))
      ensures KeyedById(snapshots) && AllIn(snapshots, old(snapshots)) && AllIn(lineage, old(lineage))
      ensures !failed
              ==> snapshots == Current(c, old(snapshots)) && forall s :: s in snapshots ==> !ForeignSnapshot(c, s)
      ensures !failed ==> deleted == Count(old(snapshots), (s: Snapshot) => ForeignSnapshot(c, s))
      ensures Orphans(snapshots, lineage) == Orphans(old(snapshots), old(lineage))
      ensures |lineage| <= |old(lineage)| && Spent(|old(snapshots)| - |snapshots|, budget, left, failed)
    {
      var rest, removed;
      rest, removed, left,
        failed := DeleteInBatches(snapshots, (s: Snapshot) => ForeignSnapshot(c, s), batchSize, budget);
      SnapshotStage(c, Now(), rest, removed);
      ThinnedKeyed(snapshots, rest, (s: Snapshot) => ForeignSnapshot(c, s));
      OrphansStay(snapshots, rest, removed, lineage);
      ghost var before := lineage;
      WithoutCounts(lineage, (l: Lineage) => HasId(removed, l.snapshot));
      snapshots, lineage, deleted := rest, Cascade(lineage, removed), |removed|;
      forall l | l in lineage ensures l in before {
        WithoutAre(before, (l: Lineage) => HasId(removed, l.snapshot), l);
      }
    }

    method DeleteOrphanLineage(c: Clock, batchSize: nat, budget: nat) returns (deleted: nat, left: nat, failed: bool)
      requires batchSize >= 1
      modifies this`lineage
      ensures Collected(c, Now()) == Collected(c, old(Now()))
      ensures AllIn(lineage, old(lineage)) && (!failed ==> forall l :: l in lineage ==> HasId(snapshots, l.snapshot))
      ensures !failed ==> deleted == Orphans(snapshots, old(lineage))
      ensures Spent(|old(lineage)| - |lineage|, budget, left, failed)
    {
      var rest, removed;
      var at := snapshots;
      rest, removed, left,
        failed := DeleteInBatches(lineage, (l: Lineage) => !HasId(at, l.snapshot), batchSize, budget);
      LineageStage(c, Now(), rest);
      lineage, deleted := rest, |removed|;
    }

    /**
     * The collection. A statement that throws ends it with nothing reported; the rows deleted before stay deleted,
     * and a later complete collection still leaves exactly what one from the start would have. Six statements and
     * one more per row are always enough.
     */
    method CollectGarbage(c: Clock, batchSize: nat, budget: nat) returns (r: Option<Deletions>)
      requires batchSize >= 1 && KeyedById(snapshots)
      modifies this
      ensures Collected(c, Now()) == Collected(c, old(Now()))
      ensures KeyedById(snapshots)
      ensures AllIn(snapshots, old(snapshots)) && AllIn(lineage, old(lineage)) && AllIn(leases, old(leases))
      ensures r.Some? ==> Now() == Collected(c, old(Now())) && r.value == ReportedDeletions(c, old(Now()))
      ensures |old(leases)| + |old(snapshots)| + |old(lineage)| + 6 <= budget ==> r.Some?
    {
      ghost var start := Now();
      var foreign, left, failed := DeleteLeases(c, (e: Lease) => ForeignLease(c, e), batchSize, budget);
      if failed { return None; }
      var removed, orphans;
      removed, left, failed := DeleteForeignSnapshots(c, batchSize, left);
      if failed { return None; }
      orphans, left, failed := DeleteOrphanLineage(c, batchSize, left);
      if failed { return None; }
      var dangling, active, retired;
      dangling, active, retired, failed := CollectLeases(c, batchSize, left);
      if failed { return None; }
      r := Some(Deletions(removed, orphans, foreign + dangling, active + retired));
      LeaseCounts(c, start.leases, snapshots);
      NoneDoomed(snapshots, (s: Snapshot) => ForeignSnapshot(c, s));
      CleanIsCollected(c, Now());
    }

    method CollectLeases(c: Clock, batchSize: nat, budget: nat)
      returns (dangling: nat, active: nat, retired: nat, failed: bool)
      requires batchSize >= 1
      modifies this`leases
      ensures Collected(c, Now()) == Collected(c, old(Now()))
      ensures AllIn(leases, old(leases))
      ensures failed ==> budget <= |old(leases)| - |leases| + 2
      ensures !failed ==> dangling == Unbacked(snapshots, old(leases))
      ensures !failed ==> active + retired == ExpiredBacked(c, snapshots, old(leases))
      ensures !failed
              ==> forall e :: e in leases ==> Backed(snapshots, e) && !ExpiredActive(c, e) && !ExpiredRetired(c, e)
    {
      var at, left := snapshots, 0;
      active, retired := 0, 0;
      DanglingAreDead(c, Now());
      dangling, left, failed := DeleteLeases(c, (e: Lease) => !Backed(at, e), batchSize, budget);
      if failed { return; }
      ghost var backed := leases;
      active, left, failed := DeleteLeases(c, (e: Lease) => ExpiredActive(c, e), batchSize, left);
      if failed { return; }
      retired, left, failed := DeleteLeases(c, (e: Lease) => ExpiredRetired(c, e), batchSize, left);
      CountEither(backed, (e: Lease) => ExpiredActive(c, e), (e: Lease) => ExpiredRetired(c, e),
                  (e: Lease) => ExpiredActive(c, e) || ExpiredRetired(c, e));
    }

    /**
     * One janitor run: off or not due leaves everything; the mark is written exactly when the collection completed,
     * and then the store is collected and the deletions reported are exact.
     */
    method RunJanitor(c: Clock, enabled: bool, due: bool, batchSize: nat, budget: nat, lastRun: Option<int>)
      returns (ran: bool, deleted: Option<Deletions>, mark: Option<int>)
      requires batchSize >= 1 && KeyedById(snapshots)
      modifies this
      ensures ran == (enabled && due) && (!ran ==> Now() == old(Now()) && deleted.None?)
      ensures mark == if deleted.Some? then Some(c.now) else lastRun
      ensures Collected(c, Now()) == Collected(c, old(Now()))
      ensures deleted.Some? ==> Now() == Collected(c, old(Now())) && deleted.value == ReportedDeletions(c, old(Now()))
      ensures ran && |old(leases)| + |old(snapshots)| + |old(lineage)| + 6 <= budget ==> deleted.Some?
    {
      if !enabled || !due { return false, None, lastRun; }
      deleted := CollectGarbage(c, batchSize, budget);
      return true, deleted, if deleted.Some? then Some(c.now) else lastRun;
    }
  }

  /**
   * A collection interrupted after any statement and then another in any batch size: when the second completes,
   * the store is what one complete collection from the start leaves.
   */
  method CollectAgain(store: Store, c: Clock, firstBatch: nat, firstBudget: nat, secondBatch: nat, secondBudget: nat)
    returns (r: Option<Deletions>)
    requires firstBatch >= 1 && secondBatch >= 1 && KeyedById(store.snapshots)
    modifies store
    ensures Collected(c, store.Now()) == Collected(c, old(store.Now()))
    ensures r.Some? ==> store.Now() == Collected(c, old(store.Now()))
  {
    r := store.CollectGarbage(c, firstBatch, firstBudget);
    r := store.CollectGarbage(c, secondBatch, secondBudget);
  }

  /** A collection at an earlier instant takes nothing from a later one of the same generation. */
  lemma EarlierCollectionIsNoLoss(c: Clock, later: Clock, t: Tables)
    requires later == c.(now := later.now) && c.now <= later.now
    ensures Collected(later, Collected(c, t)) == Collected(later, t)
  {
    var g := Collected(c, t);
    var foreign := (s: Snapshot) => ForeignSnapshot(c, s);
    WithoutSame(t.snapshots, foreign, (s: Snapshot) => ForeignSnapshot(later, s));
    assert Current(later, t.snapshots) == g.snapshots;
    CollectedIsClean(c, t);
    NoneDoomed(g.snapshots, (s: Snapshot) => ForeignSnapshot(later, s));
    assert Current(later, g.snapshots) == g.snapshots;
    WithoutTwice(t.lineage, (l: Lineage) => !HasId(g.snapshots, l.snapshot),
                 (l: Lineage) => !HasId(g.snapshots, l.snapshot));
    WithoutTwice(t.leases, (e: Lease) => Dead(c, g.snapshots, e), (e: Lease) => Dead(later, g.snapshots, e));
  }
}
