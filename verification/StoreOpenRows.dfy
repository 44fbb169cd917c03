/** What an open leaves of the rows it found, and when it publishes: sweep, hooks and rebuild, exactly. */
module StoreOpenRows {

  import opened Options
  import opened StoreTables
  import opened StoreOpen
  import opened Texts

  /**
   * A row the sweep keeps: of the generation, and for a lease backed by a kept snapshot, for lineage referencing one.
   */
  lemma SweepExactly(generation: string, t: Tables)
    ensures var kept := Sweep(generation, t);
            && (forall s :: s in kept.snapshots <==> s in t.snapshots && s.generation == generation)
            && (forall l :: l in kept.lineage <==>
                  l in t.lineage && exists s :: s in t.snapshots && s.generation == generation && s.id == l.snapshot)
            && (forall e :: e in kept.leases <==>
                  && e in t.leases && StandsIn(e.snapshotHash, ":" + generation + ":")
                  && exists s :: s in t.snapshots && s.generation == generation && s.path == e.path
                                 && s.hash == e.snapshotHash && s.committed)
  {
    var c, kept := ClockOf(generation), Sweep(generation, t);
    var leases := Without(t.leases, (e: Lease) => ForeignLease(c, e));
    forall s ensures s in kept.snapshots <==> s in t.snapshots && s.generation == generation {
      WithoutAre(t.snapshots, (s: Snapshot) => ForeignSnapshot(c, s), s);
    }
    forall l
      ensures l in kept.lineage <==> l in t.lineage && exists s :: s in kept.snapshots && s.id == l.snapshot
    {
      WithoutAre(t.lineage, (l: Lineage) => !HasId(kept.snapshots, l.snapshot), l);
      HasIdMeans(kept.snapshots, l.snapshot);
    }
    forall e
      ensures e in kept.leases <==>
                && e in t.leases && StandsIn(e.snapshotHash, ":" + generation + ":")
                && exists s :: s in kept.snapshots && s.path == e.path && s.hash == e.snapshotHash && s.committed
    {
      WithoutAre(t.leases, (e: Lease) => ForeignLease(c, e), e);
      WithoutAre(leases, (e: Lease) => !Backed(kept.snapshots, e), e);
      BackedMeans(kept.snapshots, e);
      IncludesMeans(e.snapshotHash, ":" + generation + ":");
    }
  }

  /** The tables after the hooks from the i-th on, each applied once, in order. */
  function AfterHooks(hooks: seq<Tables -> Tables>, i: nat, t: Tables): Tables
    requires i <= |hooks|
    decreases |hooks| - i
  {
    if i == |hooks| then t else AfterHooks(hooks, i + 1, hooks[i](t))
  }

  /** With steps enough the hooks all run, in order, unless one throws. */
  lemma {:induction false} HooksRun(w: Conn, b: Build, i: nat, throws: nat -> bool)
    requires i <= |b.hooks| && w.alive && w.settled
    ensures var h := Hooks(w, b, i, throws);
            var thrown := exists j :: i <= j < |b.hooks| && throws(j);
            && (w.fuel >= |b.hooks| - i ==> h.conn.alive && h.threw == thrown)
            && (h.threw ==> thrown) && (h.conn.alive && !h.threw ==> !thrown && h.conn.fuel == w.fuel - (|b.hooks| - i))
            && (h.conn.alive && !h.threw ==> h.conn.disk.tables == AfterHooks(b.hooks, i, w.disk.tables))
    decreases |b.hooks| - i
  {
    if i < |b.hooks| && w.fuel > 0 {
      var next := Step(w, w.disk.(tables := b.hooks[i](w.disk.tables)));
      if !throws(i) { HooksRun(next, b, i + 1, throws); }
    } else if i < |b.hooks| {
      HooksDie(w, b, i, throws);
    }
  }

  lemma HooksDie(w: Conn, b: Build, i: nat, throws: nat -> bool)
    requires i < |b.hooks| && w.alive && w.settled && w.fuel == 0
    ensures !Hooks(w, b, i, throws).conn.alive && !Hooks(w, b, i, throws).threw
  {
    var next := Step(w, w.disk.(tables := b.hooks[i](w.disk.tables)));
    assert !next.alive && Hooks(w, b, i, throws) == Hooks(next, b, i + 1, throws);
  }

  /** Durable steps of an open that meets no throw: sweep and version when due, one per hook, the stamp's two halves. */
  function Needs(b: Build, due: bool): nat
  {
    |b.hooks| + if due then 4 else 0
  }

  ghost predicate SomeThrows(b: Build, throws: nat -> bool)
  {
    exists j :: 0 <= j < |b.hooks| && throws(j)
  }

  lemma BuildLeaves(w: Conn, b: Build)
    requires w.alive
    ensures var o := OpenDb(w, b);
            && o.due == !Matches(w.disk, b)
            && (o.conn.alive <==> !o.due || w.fuel >= 2)
            && (o.conn.alive ==> o.conn.fuel == w.fuel - if o.due then 2 else 0)
            && (o.conn.alive
                ==> o.conn.disk.tables == if o.due then Sweep(b.stamp.generation, w.disk.tables) else w.disk.tables)
            && (!o.due ==> o.conn.disk == w.disk)
            && (o.conn.disk.tables == w.disk.tables || o.conn.disk.tables == Sweep(b.stamp.generation, w.disk.tables))
  {
  }

  lemma FinishLeaves(w: Conn, b: Build, due: bool, throws: nat -> bool)
    requires w.alive
    ensures var e := Finish(w, b, due, throws);
            && (e.outcome == Published ==>
                  !SomeThrows(b, throws) && e.conn.disk.tables == AfterHooks(b.hooks, 0, w.disk.tables))
            && (w.fuel >= |b.hooks| + (if due then 2 else 0) ==>
                  e.outcome == if SomeThrows(b, throws) then Failed else Published)
            && (e.outcome == Failed ==> SomeThrows(b, throws))
  {
    HooksRun(w.(settled := true), b, 0, throws);
  }

  /**
   * A store that passes the integrity check is never rebuilt. What it publishes is its own tables, swept when the stamp
   * did not match and left alone when it did, with every hook applied once in order.
   */
  lemma HealthyOpenKeepsRows(d: Disk, b: Build, fuel: nat, throws: nat -> bool)
    ensures var e, due := Open(d, b, fuel, true, throws), !Matches(d, b);
            && (e.outcome == Published ==>
                  e.conn.disk.tables
                  == AfterHooks(b.hooks, 0, if due then Sweep(b.stamp.generation, d.tables) else d.tables))
            && (fuel >= Needs(b, due) ==> e.outcome == if SomeThrows(b, throws) then Failed else Published)
            && (e.outcome == Failed ==> SomeThrows(b, throws))
  {
    var first := OpenDb(Conn(d, 0, false, fuel, true), b);
    BuildLeaves(Conn(d, 0, false, fuel, true), b);
    if first.conn.alive { FinishLeaves(first.conn, b, first.due, throws); }
  }

  /**
   * Without hooks, a healthy open keeps every row but those its sweep names: all of them when the stamp matches, and
   * then it publishes without a single write.
   */
  lemma HealthyOpenWithoutHooks(d: Disk, b: Build, fuel: nat, throws: nat -> bool)
    requires b.hooks == []
    ensures var e := Open(d, b, fuel, true, throws);
            && (e.outcome == Published <==> Matches(d, b) || fuel >= 4)
                && (e.outcome == Crashed <==> e.outcome != Published)
            && (Matches(d, b) ==> e.conn.disk.tables == d.tables && e.conn.fuel == fuel)
            && (!Matches(d, b) ==>
                  e.conn.disk.tables == if fuel == 0 then d.tables else Sweep(b.stamp.generation, d.tables))
  {
    var start := Conn(d, 0, false, fuel, true);
    BuildLeaves(start, b);
    var first := OpenDb(start, b);
    if first.conn.alive { assert Hooks(first.conn.(settled := true), b, 0, throws).conn.alive; }
  }

  /** A store that fails the check keeps no row of the old file: what is published, or fails in a hook, began empty. */
  lemma UnhealthyOpenKeepsNoRow(d: Disk, b: Build, fuel: nat, throws: nat -> bool)
    ensures var e, empty := Open(d, b, fuel, false, throws), Tables([], [], []);
            && (e.outcome == Published ==> e.conn.disk.tables == AfterHooks(b.hooks, 0, empty))
            && (fuel >= (if Matches(d, b) then 0 else 2) + 1 + Needs(b, true) ==>
                  e.outcome == if SomeThrows(b, throws) then Failed else Published)
            && (e.outcome == Published && OnlyDeletes(b) ==>
                  e.conn.disk.tables.snapshots == [] && e.conn.disk.tables.leases == [])
  {
    var start := Conn(d, 0, false, fuel, true);
    BuildLeaves(start, b);
    var first := OpenDb(start, b);
    if first.conn.alive {
      var again := Step(first.conn, FRESH);
      if again.alive {
        assert !Matches(FRESH, b);
        BuildLeaves(again, b);
        var second := OpenDb(again, b);
        assert Sweep(b.stamp.generation, FRESH.tables) == FRESH.tables;
        if second.conn.alive { FinishLeaves(second.conn, b, second.due, throws); }
      }
    }
    if OnlyDeletes(b) { DeletingHooks(b, 0, Tables([], [], [])); }
  }

  lemma {:induction false} DeletingHooks(b: Build, i: nat, t: Tables)
    requires i <= |b.hooks| && OnlyDeletes(b)
    ensures Fewer(AfterHooks(b.hooks, i, t), t)
    ensures t.snapshots == [] && t.leases == [] ==>
              AfterHooks(b.hooks, i, t).snapshots == [] && AfterHooks(b.hooks, i, t).leases == []
    decreases |b.hooks| - i
  {
    if i < |b.hooks| {
      var next := b.hooks[i](t);
      assert Fewer(next, t);
      assert next.snapshots != [] ==> next.snapshots[0] in t.snapshots;
      assert next.leases != [] ==> next.leases[0] in t.leases;
      DeletingHooks(b, i + 1, b.hooks[i](t));
    }
  }

  // ----- the stamp's three fields

  lemma {:induction false} HooksLeaveStamp(w: Conn, b: Build, i: nat, throws: nat -> bool)
    requires i <= |b.hooks| && w.settled
    ensures var h := Hooks(w, b, i, throws).conn.disk;
            h.version == w.disk.version && h.stamp == w.disk.stamp && h.userVersion == w.disk.userVersion
    decreases |b.hooks| - i
  {
    if w.alive && i < |b.hooks| {
      var next := Step(w, w.disk.(tables := b.hooks[i](w.disk.tables)));
      if !(next.alive && throws(i)) { HooksLeaveStamp(next, b, i + 1, throws); }
    }
  }

  lemma FinishStamps(w: Conn, b: Build, due: bool, throws: nat -> bool)
    requires w.alive && w.disk.version == Some(b.stamp.schema)
    requires due || (w.disk.userVersion == b.stamp.schema && w.disk.stamp == Some(b.stamp))
    ensures var e := Finish(w, b, due, throws);
            var left := e.conn.disk;
            e.outcome == Published ==>
              left.userVersion == b.stamp.schema && left.version == Some(b.stamp.schema) && left.stamp == Some(b.stamp)
  {
    HooksLeaveStamp(w.(settled := true), b, 0, throws);
  }

  /** Whatever it found, a published open leaves all three fields of its own build, healthy or rebuilt. */
  lemma PublishedIsStamped(d: Disk, b: Build, fuel: nat, healthy: bool, throws: nat -> bool)
    requires Open(d, b, fuel, healthy, throws).outcome == Published
    ensures var left := Open(d, b, fuel, healthy, throws).conn.disk;
            left.userVersion == b.stamp.schema && left.version == Some(b.stamp.schema) && left.stamp == Some(b.stamp)
  {
    var first := OpenDb(Conn(d, 0, false, fuel, true), b);
    if healthy {
      FinishStamps(first.conn, b, first.due, throws);
    } else {
      var second := OpenDb(Step(first.conn, FRESH), b);
      FinishStamps(second.conn, b, second.due, throws);
    }
  }

  /** Opening again with the same build is quiet: not one durable step, and every row stays. */
  lemma ReopenIsQuiet(d: Disk, b: Build, fuel: nat, healthy: bool, throws: nat -> bool, again: nat)
    requires Open(d, b, fuel, healthy, throws).outcome == Published && b.hooks == []
    ensures var disk := Open(d, b, fuel, healthy, throws).conn.disk;
            var e := Open(disk, b, again, true, throws);
            e.outcome == Published && e.conn.fuel == again && e.conn.sweeps == 0 && e.conn.disk.tables == disk.tables
  {
    PublishedIsStamped(d, b, fuel, healthy, throws);
    HealthyOpenWithoutHooks(Open(d, b, fuel, healthy, throws).conn.disk, b, again, throws);
  }

  /**
   * A healthy open without hooks takes no durable step exactly when header, version row and stamp are all its build's;
   * any one of them missing, as after a crash between the two stamp writes, costs one full open.
   */
  lemma QuietExactlyWhen(d: Disk, b: Build, fuel: nat, throws: nat -> bool)
    requires b.hooks == []
    ensures var e := Open(d, b, fuel, true, throws);
            e.outcome == Published && e.conn.fuel == fuel
            <==> d.userVersion == b.stamp.schema && d.version == Some(b.stamp.schema) && d.stamp == Some(b.stamp)
  {
  }
}
