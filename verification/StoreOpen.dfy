/** Opening the store: the stamp gate, the sweep, the hooks, and the stamp written last, with a crash after any step. */
module StoreOpen {

  import opened Options
  import opened StoreTables

  /** The stamp's fields: schema version, canon version, anchor generation, number of open hooks. */
  datatype Stamp = Stamp(schema: int, canon: int, generation: string, hooks: nat)

  /** A build: its stamp and its open hooks, which only delete rows. */
  datatype Build = Build(stamp: Stamp, hooks: seq<Tables -> Tables>)

  /** The file: header field, the two meta rows and the tables; `ran` records which stamps' hooks all ran on it. */
  datatype Disk = Disk(userVersion: int, version: Option<int>, stamp: Option<Stamp>, tables: Tables, ran: set<Stamp>)

  const FRESH := Disk(0, None, None, Tables([], [], []), {})

  /** A connection: sweeps so far, whether an open owns it in its hook phase, durable steps left before the crash. */
  datatype Conn = Conn(disk: Disk, sweeps: nat, settled: bool, fuel: nat, alive: bool)

  function ClockOf(generation: string): Clock
  {
    Clock(generation, 0, 0, 0)
  }

  predicate Matches(d: Disk, b: Build)
  {
    d.userVersion == b.stamp.schema && d.version == Some(b.stamp.schema) && d.stamp == Some(b.stamp)
  }

  /** The generation sweep, one transaction: foreign leases, foreign snapshots, orphan lineage, dangling leases. */
  function Sweep(generation: string, t: Tables): Tables
  {
    var c := ClockOf(generation);
    var leases := Without(t.leases, (e: Lease) => ForeignLease(c, e));
    var snapshots := Current(c, t.snapshots);
    Tables(snapshots, Without(t.lineage, (l: Lineage) => !HasId(snapshots, l.snapshot)),
           Without(leases, (e: Lease) => !Backed(snapshots, e)))
  }

  /** One durable step, or the crash before it. */
  function Step(w: Conn, next: Disk): Conn
  {
    if !w.alive || w.fuel == 0 then w.(alive := false) else w.(disk := next, fuel := w.fuel - 1)
  }

  /** `ensureSnapshotTables`, from the build and re-entrantly from a hook: the sweep, unless settled or stamped. */
  function Ensure(w: Conn, b: Build): Conn
  {
    if w.settled || Matches(w.disk, b) then w
    else
      var next := Step(w, w.disk.(tables := Sweep(b.stamp.generation, w.disk.tables)));
      if next.alive then next.(sweeps := next.sweeps + 1) else next
  }

  /** A new connection and its build; the stamp is due when it did not match. */
  datatype Opened = Opened(conn: Conn, due: bool)

  function OpenDb(w: Conn, b: Build): Opened
  {
    var conn := w.(sweeps := 0, settled := false);
    var due := !Matches(conn.disk, b);
    var built := Ensure(conn, b);
    Opened(if due then Step(built, built.disk.(version := Some(b.stamp.schema))) else built, due)
  }

  datatype Hooked = Hooked(conn: Conn, threw: bool)

  function Hooks(w: Conn, b: Build, i: nat, throws: nat -> bool): Hooked
    requires i <= |b.hooks|
    decreases |b.hooks| - i
  {
    if !w.alive then Hooked(w, false)
    else if i == |b.hooks| then Hooked(w.(disk := w.disk.(ran := w.disk.ran + {b.stamp})), false)
    else
      var ensured := Ensure(w, b);
      var next := Step(ensured, ensured.disk.(tables := b.hooks[i](ensured.disk.tables)));
      if next.alive && throws(i) then Hooked(next, true) else Hooks(next, b, i + 1, throws)
  }

  datatype Outcome = Published | Failed | Crashed

  datatype Ended = Ended(conn: Conn, outcome: Outcome)

  function WriteStamp(w: Conn, b: Build): Conn
  {
    var stamped := Step(w, w.disk.(stamp := Some(b.stamp)));
    Step(stamped, stamped.disk.(userVersion := b.stamp.schema))
  }

  /** After the build: the hooks, then the stamp when it is due, then the publication. */
  function Finish(w: Conn, b: Build, due: bool, throws: nat -> bool): Ended
  {
    var hooked := Hooks(w.(settled := true), b, 0, throws);
    if hooked.threw then Ended(hooked.conn.(settled := false), Failed)
    else
      var done := if due then WriteStamp(hooked.conn, b) else hooked.conn;
      Ended(done.(settled := false), if done.alive then Published else Crashed)
  }

  /** `healthy` is the integrity check's answer; a store that fails it is quarantined and built afresh. */
  function Open(d: Disk, b: Build, fuel: nat, healthy: bool, throws: nat -> bool): Ended
  {
    var first := OpenDb(Conn(d, 0, false, fuel, true), b);
    if !first.conn.alive then Ended(first.conn, Crashed)
    else if healthy then Finish(first.conn, b, first.due, throws)
    else
      var second := OpenDb(Step(first.conn, FRESH), b);
      if !second.conn.alive then Ended(second.conn, Crashed) else Finish(second.conn, b, second.due, throws)
  }

  // ----- the program

  class Opener {
    var disk: Disk
    var sweeps: nat
    var settled: bool
    var fuel: nat
    var alive: bool

    ghost function Now(): Conn
      reads this
    {
      Conn(disk, sweeps, settled, fuel, alive)
    }

    constructor (d: Disk, fuel: nat)
      ensures Now() == Conn(d, 0, false, fuel, true)
    {
      disk, sweeps, settled, this.fuel, alive := d, 0, false, fuel, true;
    }

    method Land(next: Disk)
      modifies this
      ensures Now() == Step(old(Now()), next)
    {
      if !alive || fuel == 0 { alive := false; } else { disk, fuel := next, fuel - 1; }
    }

    method EnsureSnapshotTables(b: Build)
      modifies this
      ensures Now() == Ensure(old(Now()), b)
    {
      if settled || Matches(disk, b) { return; }
      Land(disk.(tables := Sweep(b.stamp.generation, disk.tables)));
      if alive { sweeps := sweeps + 1; }
    }

    method BuildStore(b: Build) returns (due: bool)
      modifies this
      ensures Opened(Now(), due) == OpenDb(old(Now()), b)
    {
      sweeps, settled := 0, false;
      due := !Matches(disk, b);
      EnsureSnapshotTables(b);
      if due { Land(disk.(version := Some(b.stamp.schema))); }
    }

    method RunHooks(b: Build, throws: nat -> bool) returns (threw: bool)
      modifies this
      ensures Hooked(Now(), threw) == Hooks(old(Now()), b, 0, throws)
    {
      for i := 0 to |b.hooks|
        invariant Hooks(Now(), b, i, throws) == Hooks(old(Now()), b, 0, throws)
      {
        if !alive { return false; }
        EnsureSnapshotTables(b);
        Land(disk.(tables := b.hooks[i](disk.tables)));
        if alive && throws(i) { return true; }
      }
      if alive { disk := disk.(ran := disk.ran + {b.stamp}); }
      return false;
    }

    method FinishOpen(b: Build, due: bool, throws: nat -> bool) returns (outcome: Outcome)
      modifies this
      ensures Ended(Now(), outcome) == Finish(old(Now()), b, due, throws)
    {
      settled := true;
      var threw := RunHooks(b, throws);
      if threw {
        settled := false;
        return Failed;
      }
      if due {
        Land(disk.(stamp := Some(b.stamp)));
        Land(disk.(userVersion := b.stamp.schema));
      }
      settled := false;
      return if alive then Published else Crashed;
    }

    method OpenStore(b: Build, healthy: bool, throws: nat -> bool) returns (outcome: Outcome)
      requires alive && sweeps == 0 && !settled
      modifies this
      ensures Ended(Now(), outcome) == Open(old(disk), b, old(fuel), healthy, throws)
    {
      var due := BuildStore(b);
      if !alive { return Crashed; }
      if !healthy {
        Land(FRESH);
        due := BuildStore(b);
        if !alive { return Crashed; }
      }
      outcome := FinishOpen(b, due, throws);
    }
  }

  // ----- what a stamp certifies

  /** No snapshot or lease row carries another generation. */
  ghost predicate AllOf(generation: string, t: Tables)
  {
    && (forall s :: s in t.snapshots ==> !ForeignSnapshot(ClockOf(generation), s))
    && (forall e :: e in t.leases ==> !ForeignLease(ClockOf(generation), e))
  }

  ghost predicate Fewer(less: Tables, more: Tables)
  {
    && (forall s :: s in less.snapshots ==> s in more.snapshots)
    && (forall e :: e in less.leases ==> e in more.leases)
  }

  ghost predicate OnlyDeletes(b: Build)
  {
    forall i, t :: 0 <= i < |b.hooks| ==> Fewer(b.hooks[i](t), t)
  }

  /** The stamp row certifies: an open under that stamp ran all its hooks, and every row is of its generation. */
  ghost predicate Certified(d: Disk)
  {
    d.stamp.Some? ==> d.stamp.value in d.ran && AllOf(d.stamp.value.generation, d.tables)
  }

  lemma SweepClears(generation: string, t: Tables)
    ensures AllOf(generation, Sweep(generation, t)) && Fewer(Sweep(generation, t), t)
  {
    var c := ClockOf(generation);
    var leases := Without(t.leases, (e: Lease) => ForeignLease(c, e));
    var snapshots := Current(c, t.snapshots);
    forall s ensures s in snapshots <==> s in t.snapshots && !ForeignSnapshot(c, s) {
      WithoutAre(t.snapshots, (s: Snapshot) => ForeignSnapshot(c, s), s);
    }
    forall e
      ensures e in Without(leases, (e: Lease) => !Backed(snapshots, e)) ==> e in t.leases && !ForeignLease(c, e)
    {
      WithoutAre(t.leases, (e: Lease) => ForeignLease(c, e), e);
      WithoutAre(leases, (e: Lease) => !Backed(snapshots, e), e);
    }
  }

  /** A connection during b's open: the file is certified, and what b is about to certify already holds. */
  ghost predicate Opening(w: Conn, b: Build)
  {
    Certified(w.disk) && AllOf(b.stamp.generation, w.disk.tables)
  }

  lemma EnsureOpens(w: Conn, b: Build)
    requires Certified(w.disk) && w.alive && !w.settled && w.sweeps == 0
    ensures var n := Ensure(w, b); Certified(n.disk) && n.sweeps <= 1 && (n.alive ==> Opening(n, b))
  {
    SweepClears(b.stamp.generation, w.disk.tables);
  }

  /** A new connection sweeps at most once, and once alive it holds only rows of its own generation. */
  lemma OpenDbOpens(w: Conn, b: Build)
    requires Certified(w.disk)
    ensures var o := OpenDb(w, b); Certified(o.conn.disk) && o.conn.sweeps <= 1 && (o.conn.alive ==> Opening(o.conn, b))
    ensures !OpenDb(w, b).due ==> Matches(OpenDb(w, b).conn.disk, b)
    ensures OpenDb(w, b).conn.alive ==> OpenDb(w, b).conn.disk.version == Some(b.stamp.schema)
  {
    if w.alive { EnsureOpens(w.(sweeps := 0, settled := false), b); }
  }

  /** The hooks sweep no more, keep the certificate, and record that they all ran when they all did. */
  lemma {:induction false} HooksKeep(w: Conn, b: Build, i: nat, throws: nat -> bool)
    requires i <= |b.hooks| && OnlyDeletes(b) && w.settled && Opening(w, b)
    ensures var h := Hooks(w, b, i, throws);
            && Opening(h.conn, b) && h.conn.sweeps == w.sweeps && h.conn.settled
            && (h.conn.alive && !h.threw ==> b.stamp in h.conn.disk.ran)
            && h.conn.disk.version == w.disk.version && h.conn.disk.stamp == w.disk.stamp
                && h.conn.disk.userVersion == w.disk.userVersion
    decreases |b.hooks| - i
  {
    if w.alive && i < |b.hooks| {
      var next := Step(w, w.disk.(tables := b.hooks[i](w.disk.tables)));
      assert Fewer(b.hooks[i](w.disk.tables), w.disk.tables);
      if !(next.alive && throws(i)) { HooksKeep(next, b, i + 1, throws); }
    }
  }

  lemma FinishKeeps(w: Conn, b: Build, due: bool, throws: nat -> bool)
    requires OnlyDeletes(b) && Opening(w, b) && w.alive && w.sweeps <= 1
    requires w.disk.version == Some(b.stamp.schema) && (!due ==> Matches(w.disk, b))
    ensures var e := Finish(w, b, due, throws);
            && Certified(e.conn.disk) && e.conn.sweeps <= 1
            && (e.outcome == Published ==> Matches(e.conn.disk, b))
  {
    HooksKeep(w.(settled := true), b, 0, throws);
  }

  /**
   * Any open, crashed anywhere: the certificate holds after it, its connection swept at most once, and a publication is
   * stamped.
   */
  lemma OpenKeeps(d: Disk, b: Build, fuel: nat, healthy: bool, throws: nat -> bool)
    requires Certified(d) && OnlyDeletes(b)
    ensures var e := Open(d, b, fuel, healthy, throws);
            && Certified(e.conn.disk) && e.conn.sweeps <= 1
            && (e.outcome == Published ==> Matches(e.conn.disk, b))
  {
    var start := Conn(d, 0, false, fuel, true);
    OpenDbOpens(start, b);
    var first := OpenDb(start, b);
    if first.conn.alive {
      if healthy {
        FinishKeeps(first.conn, b, first.due, throws);
      } else {
        var again := Step(first.conn, FRESH);
        OpenDbOpens(again, b);
        var second := OpenDb(again, b);
        if second.conn.alive { FinishKeeps(second.conn, b, second.due, throws); }
      }
    }
  }

  // ----- lifetimes of a file

  /** An attempt to open, or writes of the session that opened last, under its own generation. */
  datatype Event =
    | Attempt(build: Build, fuel: nat, healthy: bool, throws: nat -> bool)
    | Write(tables: Tables)

  datatype Life = Life(disk: Disk, holder: Option<Build>)

  ghost predicate WritesAs(generation: string, before: Tables, after: Tables)
  {
    && (forall s :: s in after.snapshots ==> s in before.snapshots || !ForeignSnapshot(ClockOf(generation), s))
    && (forall e :: e in after.leases ==> e in before.leases || !ForeignLease(ClockOf(generation), e))
  }

  ghost predicate Enabled(l: Life, e: Event)
  {
    match e
    case Attempt(b, _, _, _) => OnlyDeletes(b)
    case Write(tables) => l.holder.Some? && WritesAs(l.holder.value.stamp.generation, l.disk.tables, tables)
  }

  function Next(l: Life, e: Event): Life
  {
    match e
    case Attempt(b, fuel, healthy, throws) =>
      var ended := Open(l.disk, b, fuel, healthy, throws);
      Life(ended.conn.disk, if ended.outcome == Published then Some(b) else None)
    case Write(tables) => l.(disk := l.disk.(tables := tables))
  }

  ghost predicate Alive(l: Life)
  {
    Certified(l.disk) && (l.holder.Some? ==> Matches(l.disk, l.holder.value))
  }

  lemma EventKeeps(l: Life, e: Event)
    requires Alive(l) && Enabled(l, e)
    ensures Alive(Next(l, e))
  {
    if e.Attempt? { OpenKeeps(l.disk, e.build, e.fuel, e.healthy, e.throws); }
  }

  ghost predicate Run(l: Life, events: seq<Event>, end: Life)
    decreases |events|
  {
    if events == [] then l == end else Enabled(l, events[0]) && Run(Next(l, events[0]), events[1..], end)
  }

  lemma {:induction false} RunKeeps(l: Life, events: seq<Event>, end: Life)
    requires Alive(l) && Run(l, events, end)
    ensures Alive(end)
    decreases |events|
  {
    if events != [] {
      EventKeeps(l, events[0]);
      RunKeeps(Next(l, events[0]), events[1..], end);
    }
  }

  /**
   * Any run of serial opens by any builds, each crashed or failed anywhere, with session writes between them: a
   * stamp that matches a build means an open under that stamp ran all its hooks and no row is foreign to the build.
   */
  lemma MatchingStampIsEarned(events: seq<Event>, end: Life, b: Build)
    requires Run(Life(FRESH, None), events, end) && Matches(end.disk, b)
    ensures b.stamp in end.disk.ran && AllOf(b.stamp.generation, end.disk.tables)
  {
    RunKeeps(Life(FRESH, None), events, end);
  }
}
