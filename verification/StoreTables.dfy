/**
 * The related tables of the snapshot store, the generation and provenance predicates, and one closed form of a garbage
 * collection.
 */
module StoreTables {

  import opened Options
  import opened Texts

  datatype Snapshot = Snapshot(id: nat, path: string, hash: string, generation: string, committed: bool)

  datatype Lineage = Lineage(snapshot: nat, line: nat, anchor: string)

  datatype Lease = Lease(session: string, path: string, anchor: string, snapshotHash: string, updatedAt: int,
                         retiredAt: Option<int>)

  /** `snapshots` stands in id order: the id is the primary key. */
  datatype Tables = Tables(snapshots: seq<Snapshot>, lineage: seq<Lineage>, leases: seq<Lease>)

  /** The current generation, the instant of the run, the session time to live and the grace of a retired lease. */
  datatype Clock = Clock(generation: string, now: int, ttl: int, grace: int)

  // ----- rows a predicate names

  function Without<T>(rows: seq<T>, doomed: T -> bool): seq<T>
  {
    if rows == [] then [] else if doomed(rows[0]) then Without(rows[1..], doomed)
      else [rows[0]] + Without(rows[1..], doomed)
  }

  function Count<T>(rows: seq<T>, doomed: T -> bool): nat
  {
    if rows == [] then 0 else (if doomed(rows[0]) then 1 else 0) + Count(rows[1..], doomed)
  }

  predicate ForeignSnapshot(c: Clock, s: Snapshot)
  {
    s.generation != c.generation
  }

  /** `served_snapshot_hash NOT LIKE '%:G:%'` */
  predicate ForeignLease(c: Clock, e: Lease)
  {
    !Includes(e.snapshotHash, ":" + c.generation + ":")
  }

  predicate HasId(snapshots: seq<Snapshot>, id: nat)
  {
    snapshots != [] && (snapshots[0].id == id || HasId(snapshots[1..], id))
  }

  /** A committed snapshot of the lease's own path under its hash. */
  predicate Backed(snapshots: seq<Snapshot>, e: Lease)
  {
    snapshots != []
    && ((snapshots[0].path == e.path && snapshots[0].hash == e.snapshotHash && snapshots[0].committed)
        || Backed(snapshots[1..], e))
  }

  predicate ExpiredActive(c: Clock, e: Lease)
  {
    e.retiredAt.None? && e.updatedAt < c.now - c.ttl
  }

  predicate ExpiredRetired(c: Clock, e: Lease)
  {
    e.retiredAt.Some? && e.retiredAt.value < c.now - c.grace
  }

  ghost predicate KeyedById(snapshots: seq<Snapshot>)
  {
    |snapshots| < 2 || (snapshots[0].id < snapshots[1].id && KeyedById(snapshots[1..]))
  }

  // ----- the closed form

  function Current(c: Clock, snapshots: seq<Snapshot>): seq<Snapshot>
  {
    Without(snapshots, (s: Snapshot) => ForeignSnapshot(c, s))
  }

  predicate Dead(c: Clock, current: seq<Snapshot>, e: Lease)
  {
    ForeignLease(c, e) || !Backed(current, e) || ExpiredActive(c, e) || ExpiredRetired(c, e)
  }

  /**
   * What a complete collection leaves: current snapshots, their lineage, and the leases they back that have not
   * expired.
   */
  function Collected(c: Clock, t: Tables): Tables
  {
    var current := Current(c, t.snapshots);
    Tables(current, Without(t.lineage, (l: Lineage) => !HasId(current, l.snapshot)),
           Without(t.leases, (e: Lease) => Dead(c, current, e)))
  }

  datatype Deletions = Deletions(snapshots: nat, lineage: nat, leases: nat, expired: nat)

  /**
   * The rows a complete collection reports: foreign snapshots, lineage that referenced no snapshot from the start
   * (what goes with a snapshot is not counted), foreign and unbacked leases, and the other leases that have expired.
   */
  function ReportedDeletions(c: Clock, t: Tables): Deletions
  {
    var current := Current(c, t.snapshots);
    Deletions(Count(t.snapshots, (s: Snapshot) => ForeignSnapshot(c, s)),
              Count(t.lineage, (l: Lineage) => !HasId(t.snapshots, l.snapshot)),
              Count(t.leases, (e: Lease) => ForeignLease(c, e) || !Backed(current, e)),
              Count(t.leases, (e: Lease) => !(ForeignLease(c, e) || !Backed(current, e))
                                            && (ExpiredActive(c, e) || ExpiredRetired(c, e))))
  }

  // ----- facts about filters

  lemma {:induction false} WithoutAre<T>(rows: seq<T>, doomed: T -> bool, x: T)
    ensures x in Without(rows, doomed) <==> x in rows && !doomed(x)
  {
    if rows != [] {
      WithoutAre(rows[1..], doomed, x);
      assert rows == [rows[0]] + rows[1..];
    }
  }

  /** Removing some of the rows a wider predicate names first does not change what it leaves. */
  lemma {:induction false} WithoutTwice<T>(rows: seq<T>, first: T -> bool, wider: T -> bool)
    requires forall x :: x in rows && first(x) ==> wider(x)
    ensures Without(Without(rows, first), wider) == Without(rows, wider)
  {
    if rows != [] {
      assert rows[0] in rows && forall x :: x in rows[1..] ==> x in rows;
      WithoutTwice(rows[1..], first, wider);
      var rest := Without(rows[1..], first);
      if !first(rows[0]) { assert ([rows[0]] + rest)[1..] == rest; }
    }
  }

  /** What a filter leaves and what it takes are all the rows. */
  lemma {:induction false} WithoutCounts<T>(rows: seq<T>, doomed: T -> bool)
    ensures |Without(rows, doomed)| + Count(rows, doomed) == |rows|
  {
    if rows != [] { WithoutCounts(rows[1..], doomed); }
  }

  /** Counting what a first filter leaves is counting the rows it does not name. */
  lemma {:induction false} CountAfter<T>(rows: seq<T>, first: T -> bool, second: T -> bool, both: T -> bool)
    requires forall x :: x in rows ==> both(x) == (!first(x) && second(x))
    ensures Count(Without(rows, first), second) == Count(rows, both)
  {
    if rows != [] {
      assert rows[0] in rows && forall x :: x in rows[1..] ==> x in rows;
      CountAfter(rows[1..], first, second, both);
      var rest := Without(rows[1..], first);
      if !first(rows[0]) { assert ([rows[0]] + rest)[1..] == rest; }
    }
  }

  /** Two filters one after the other take together what either names. */
  lemma {:induction false} CountEither<T>(rows: seq<T>, first: T -> bool, second: T -> bool, either: T -> bool)
    requires forall x :: x in rows ==> either(x) == (first(x) || second(x))
    ensures Count(rows, first) + Count(Without(rows, first), second) == Count(rows, either)
  {
    if rows != [] {
      assert rows[0] in rows && forall x :: x in rows[1..] ==> x in rows;
      CountEither(rows[1..], first, second, either);
      var rest := Without(rows[1..], first);
      if !first(rows[0]) { assert ([rows[0]] + rest)[1..] == rest; }
    }
  }

  lemma {:induction false} WithoutSame<T>(rows: seq<T>, a: T -> bool, b: T -> bool)
    requires forall x :: x in rows ==> a(x) == b(x)
    ensures Without(rows, a) == Without(rows, b)
  {
    if rows != [] {
      assert rows[0] in rows && forall x :: x in rows[1..] ==> x in rows;
      WithoutSame(rows[1..], a, b);
    }
  }

  lemma {:induction false} IdsOfCurrent(c: Clock, snapshots: seq<Snapshot>, id: nat)
    ensures HasId(Current(c, snapshots), id) ==> HasId(snapshots, id)
  {
    if snapshots != [] {
      IdsOfCurrent(c, snapshots[1..], id);
      CurrentTail(c, snapshots);
    }
  }

  lemma CurrentTail(c: Clock, snapshots: seq<Snapshot>)
    requires snapshots != []
    ensures Current(c, snapshots) ==
            if ForeignSnapshot(c, snapshots[0]) then Current(c, snapshots[1..])
              else [snapshots[0]] + Current(c, snapshots[1..])
  {
  }

  lemma {:induction false} BackedByCurrent(c: Clock, snapshots: seq<Snapshot>, e: Lease)
    ensures Backed(Current(c, snapshots), e) ==> Backed(snapshots, e)
  {
    if snapshots != [] {
      BackedByCurrent(c, snapshots[1..], e);
      CurrentTail(c, snapshots);
    }
  }

  lemma {:induction false} HasIdMeans(snapshots: seq<Snapshot>, id: nat)
    ensures HasId(snapshots, id) <==> exists s :: s in snapshots && s.id == id
  {
    if snapshots != [] {
      HasIdMeans(snapshots[1..], id);
      assert forall s :: s in snapshots <==> s == snapshots[0] || s in snapshots[1..];
    }
  }

  lemma {:induction false} BackedMeans(snapshots: seq<Snapshot>, e: Lease)
    ensures Backed(snapshots, e)
            <==> exists s :: s in snapshots && s.path == e.path && s.hash == e.snapshotHash && s.committed
  {
    if snapshots != [] {
      BackedMeans(snapshots[1..], e);
      assert forall s :: s in snapshots <==> s == snapshots[0] || s in snapshots[1..];
    }
  }

  lemma {:induction false} LaterIdsGreater(snapshots: seq<Snapshot>, s: Snapshot)
    requires KeyedById(snapshots) && snapshots != [] && s in snapshots[1..]
    ensures snapshots[0].id < s.id
  {
    if s != snapshots[1] { LaterIdsGreater(snapshots[1..], s); }
  }

  /** No two snapshots share an id. */
  lemma {:induction false} OneSnapshotPerId(snapshots: seq<Snapshot>, a: Snapshot, b: Snapshot)
    requires KeyedById(snapshots) && a in snapshots && b in snapshots && a.id == b.id
    ensures a == b
  {
    if a != snapshots[0] && b != snapshots[0] {
      OneSnapshotPerId(snapshots[1..], a, b);
    } else if a != b {
      LaterIdsGreater(snapshots, if a == snapshots[0] then b else a);
    }
  }

  // ----- what a collection leaves, and what it spares

  /** After a collection: no foreign snapshot or lease, no orphan lineage, no dangling and no expired lease. */
  lemma CollectedIsClean(c: Clock, t: Tables)
    ensures var g := Collected(c, t);
            && (forall s :: s in g.snapshots ==> !ForeignSnapshot(c, s))
            && (forall l :: l in g.lineage ==> HasId(g.snapshots, l.snapshot))
            && (forall e :: e in g.leases ==>
                  !ForeignLease(c, e) && Backed(g.snapshots, e) && !ExpiredActive(c, e) && !ExpiredRetired(c, e))
  {
    var g := Collected(c, t);
    forall s | s in g.snapshots ensures !ForeignSnapshot(c, s) {
      WithoutAre(t.snapshots, (s: Snapshot) => ForeignSnapshot(c, s), s);
    }
    forall l | l in g.lineage ensures HasId(g.snapshots, l.snapshot) {
      WithoutAre(t.lineage, (l: Lineage) => !HasId(g.snapshots, l.snapshot), l);
    }
    forall e | e in g.leases ensures !Dead(c, g.snapshots, e) {
      WithoutAre(t.leases, (e: Lease) => Dead(c, g.snapshots, e), e);
    }
  }

  /** Every other row survives; a lease only while its own snapshot does. */
  lemma CollectedSpares(c: Clock, t: Tables)
    ensures var g := Collected(c, t);
            && (forall s :: s in t.snapshots && !ForeignSnapshot(c, s) ==> s in g.snapshots)
            && (forall l :: l in t.lineage && HasId(g.snapshots, l.snapshot) ==> l in g.lineage)
            && (forall e :: e in t.leases && !Dead(c, g.snapshots, e) ==> e in g.leases)
  {
    var g := Collected(c, t);
    forall s | s in t.snapshots && !ForeignSnapshot(c, s) ensures s in g.snapshots {
      WithoutAre(t.snapshots, (s: Snapshot) => ForeignSnapshot(c, s), s);
    }
    forall l | l in t.lineage && HasId(g.snapshots, l.snapshot) ensures l in g.lineage {
      WithoutAre(t.lineage, (l: Lineage) => !HasId(g.snapshots, l.snapshot), l);
    }
    forall e | e in t.leases && !Dead(c, g.snapshots, e) ensures e in g.leases {
      WithoutAre(t.leases, (e: Lease) => Dead(c, g.snapshots, e), e);
    }
  }

  /** A lease of the current generation that a committed current snapshot backs, and that is not past its time. */
  ghost predicate Lives(c: Clock, t: Tables, e: Lease)
  {
    && StandsIn(e.snapshotHash, ":" + c.generation + ":")
    && (exists s :: s in t.snapshots && s.generation == c.generation && s.committed
                    && s.path == e.path && s.hash == e.snapshotHash)
    && match e.retiredAt
       case None => c.now <= e.updatedAt + c.ttl
       case Some(at) => c.now <= at + c.grace
  }

  /**
   * A lease outlives a collection exactly when it lives: an active one by the time to live, a retired one by the grace.
   */
  lemma CollectedLeaseExactly(c: Clock, t: Tables, e: Lease)
    ensures e in Collected(c, t).leases <==> e in t.leases && Lives(c, t, e)
  {
    var current := Current(c, t.snapshots);
    WithoutAre(t.leases, (e: Lease) => Dead(c, current, e), e);
    IncludesMeans(e.snapshotHash, ":" + c.generation + ":");
    BackedMeans(current, e);
    forall s ensures s in current <==> s in t.snapshots && s.generation == c.generation {
      WithoutAre(t.snapshots, (s: Snapshot) => ForeignSnapshot(c, s), s);
    }
    hide Includes, StandsIn, Backed, Without, Current;
  }
}
