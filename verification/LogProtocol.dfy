/** The whole life of the log: operations that begin, log blocks and end in any interleaving,
    group commits and recoveries one disk write at a time, and a crash between any two steps. */
module LogProtocol {
  import opened RedoLog
  import opened LogOps

  /** `from` is the disk when the commit or the recovery began, `was` what it stood for. */
  datatype Phase =
    | Open
    | Committing(from: Disk, was: Disk, done: nat)
    | Recovering(from: Disk, done: nat)

  datatype System = System(
    disk: Disk,
    mem: Disk,             // what bread returns
    lh: seq<int>,          // blocks of the open transaction
    ops: map<nat, nat>,    // outstanding operations and how many blocks each has added
    phase: Phase,
    durable: Disk)         // the contents that a recovery from `disk` must produce

  datatype Step =
    | Begin(op: nat)
    | Log(op: nat, block: nat, data: Block)
    | End(op: nat)
    | Flush      // the next disk write of commit, or its end
    | Crash
    | Replay     // the next disk write of recover_from_log, or its end

  /** Blocks that outstanding operations may still add. */
  ghost function Unspent(ops: map<nat, nat>): int {
    if ops == map[] then 0
    else
      var op :| op in ops;
      MAXOPBLOCKS - ops[op] + Unspent(ops - {op})
  }

  lemma {:induction false} UnspentOf(ops: map<nat, nat>, op: nat)
    requires op in ops
    ensures Unspent(ops) == MAXOPBLOCKS - ops[op] + Unspent(ops - {op})
    decreases |ops|
  {
    var o :| o in ops && Unspent(ops) == MAXOPBLOCKS - ops[o] + Unspent(ops - {o});
    if o != op {
      assert (ops - {o}) - {op} == (ops - {op}) - {o};
      UnspentOf(ops - {o}, op);
      UnspentOf(ops - {op}, o);
    }
  }

  lemma UnspentUpdate(ops: map<nat, nat>, op: nat, k: nat)
    ensures Unspent(ops[op := k]) == MAXOPBLOCKS - k + Unspent(ops - {op})
  {
    UnspentOf(ops[op := k], op);
    assert ops[op := k] - {op} == ops - {op};
  }

  /** Nobody has reserved more than MAXOPBLOCKS, so what is unspent is not negative. */
  lemma {:induction false} UnspentBounds(ops: map<nat, nat>)
    requires forall op | op in ops :: ops[op] <= MAXOPBLOCKS
    ensures 0 <= Unspent(ops) <= |ops| * MAXOPBLOCKS
    decreases |ops|
  {
    if ops != map[] {
      var op :| op in ops;
      UnspentOf(ops, op);
      UnspentBounds(ops - {op});
    }
  }

  /** The guard of log_write: false means panic. */
  predicate HasRoom(g: Geometry, s: System) {
    |s.lh| < LOGSIZE && |s.lh| < g.size - 1
  }

  /** The operation keeps its promise of at most MAXOPBLOCKS new blocks. */
  predicate WithinPromise(s: System, op: nat, b: nat) {
    op in s.ops && (b in s.lh || s.ops[op] < MAXOPBLOCKS)
  }

  ghost predicate Inv(g: Geometry, s: System) {
    && g.Valid()
    && |s.disk| == |s.mem| == |s.durable| == g.nblocks
    && Loggable(g, s.lh)
    && (forall op | op in s.ops :: s.ops[op] <= MAXOPBLOCKS)
    && |s.lh| + Unspent(s.ops) <= LOGSIZE
    && (s.phase.Open? ==> OpenInv(g, s))
    && (s.phase.Committing? ==> CommittingInv(g, s))
    && (s.phase.Recovering? ==> RecoveringInv(g, s))
  }

  ghost predicate OpenInv(g: Geometry, s: System) {
    && Recovers(g, s.disk, s.durable)
    && Clean(g, s.disk)
    && CacheHolds(g, s.mem, s.durable, s.lh)
  }

  ghost predicate CommittingInv(g: Geometry, s: System)
    requires s.phase.Committing? && g.Valid() && |s.mem| == g.nblocks && Loggable(g, s.lh)
  {
    var Committing(from, was, done) := s.phase;
    && s.ops == map[]
    && Recovers(g, from, was)
    && Clean(g, from)
    && CacheHolds(g, s.mem, was, s.lh)
    && var ws := CommitWrites(g, from, s.lh, s.mem);
    && InRange(from, ws)
    && done <= |ws|
    && s.disk == Apply(from, ws[..done])
    && s.durable == if done <= |s.lh| then was else s.mem
  }

  ghost predicate RecoveringInv(g: Geometry, s: System)
    requires s.phase.Recovering?
  {
    var Recovering(from, done) := s.phase;
    && s.ops == map[]
    && s.lh == []
    && Recovers(g, from, s.durable)
    && var ws := RecoveryWrites(g, from);
    && InRange(from, ws)
    && done <= |ws|
    && s.disk == Apply(from, ws[..done])
  }

  ghost predicate Enabled(g: Geometry, s: System, step: Step)
    requires Inv(g, s)
  {
    match step
    case Begin(op) =>
      s.phase.Open? && op !in s.ops && |s.lh| + (|s.ops| + 1) * MAXOPBLOCKS <= LOGSIZE
    case Log(op, b, data) =>
      s.phase.Open? && g.Home(b) && WithinPromise(s, op, b) && HasRoom(g, s)
    case End(op) => s.phase.Open? && op in s.ops
    case Flush => s.phase.Committing?
    case Crash => true
    case Replay => s.phase.Recovering?
  }

  ghost function Do(g: Geometry, s: System, step: Step): System
    requires Inv(g, s) && Enabled(g, s, step)
  {
    match step
    case Begin(op) => s.(ops := s.ops[op := 0])
    case Log(op, b, data) =>
      s.(mem := s.mem[b := data], lh := Absorb(s.lh, b),
         ops := if b in s.lh then s.ops else s.ops[op := s.ops[op] + 1])
    case End(op) =>
      var rest := s.ops - {op};
      s.(ops := rest, phase := if rest == map[] then Committing(s.disk, s.durable, 0) else Open)
    case Flush => Flushed(g, s)
    case Crash =>
      s.(phase := Recovering(s.disk, 0), lh := [], ops := map[], mem := s.disk)
    case Replay => Replayed(g, s)
  }

  /** The next write of a commit, or its end. */
  ghost function Flushed(g: Geometry, s: System): System
    requires Inv(g, s) && s.phase.Committing?
  {
    WritesInRange(g, s);
    var Committing(from, was, done) := s.phase;
    var ws := CommitWrites(g, from, s.lh, s.mem);
    if done == |ws| then s.(phase := Open, lh := [])
    else
      s.(disk := s.disk[ws[done].block := ws[done].data],
         phase := Committing(from, was, done + 1),
         durable := if done + 1 <= |s.lh| then was else s.mem)
  }

  /** The next write of a recovery, or its end. */
  ghost function Replayed(g: Geometry, s: System): System
    requires Inv(g, s) && s.phase.Recovering?
  {
    var Recovering(from, done) := s.phase;
    var ws := RecoveryWrites(g, from);
    if done == |ws| then s.(phase := Open, mem := s.disk)
    else
      s.(disk := s.disk[ws[done].block := ws[done].data], phase := Recovering(from, done + 1))
  }

  // ----- what every state guarantees -----

  /** In every state a recovery started right now would produce exactly `durable`. */
  lemma AlwaysRecovers(g: Geometry, s: System)
    requires Inv(g, s)
    ensures Recovers(g, s.disk, s.durable)
  {
    match s.phase
    case Open =>
    case Committing(from, was, done) => CommitCrash(g, from, s.lh, s.mem, was, done);
    case Recovering(from, done) => RecoveryCrash(g, from, s.durable, done);
  }

  lemma BeginKeeps(g: Geometry, s: System, op: nat)
    requires Inv(g, s) && Enabled(g, s, Begin(op))
    ensures Inv(g, Do(g, s, Begin(op)))
  {
    hide Recovers, Clean, CacheHolds, Loggable, Unspent;
    UnspentBounds(s.ops);
    UnspentUpdate(s.ops, op, 0);
    assert s.ops - {op} == s.ops;
  }

  lemma LogKeeps(g: Geometry, s: System, op: nat, b: nat, data: Block)
    requires Inv(g, s) && Enabled(g, s, Log(op, b, data))
    ensures Inv(g, Do(g, s, Log(op, b, data)))
  {
    hide Recovers, Clean, Unspent;
    if b !in s.lh {
      UnspentOf(s.ops, op);
      UnspentUpdate(s.ops, op, s.ops[op] + 1);
    }
  }

  lemma EndKeeps(g: Geometry, s: System, op: nat)
    requires Inv(g, s) && Enabled(g, s, End(op))
    ensures Inv(g, Do(g, s, End(op)))
  {
    UnspentOf(s.ops, op);
    UnspentBounds(s.ops);
    CommitCrash(g, s.disk, s.lh, s.mem, s.durable, 0);
    assert CommitWrites(g, s.disk, s.lh, s.mem)[..0] == [];
    hide Recovers, Clean, Unspent, Loggable, CommitWrites;
  }

  lemma NextWrite(g: Geometry, s: System, s': System)
    requires g.Valid() && |s.mem| == g.nblocks && Loggable(g, s.lh)
    requires s.phase.Committing? && CommittingInv(g, s)
    requires s.phase.done < |CommitWrites(g, s.phase.from, s.lh, s.mem)|
    requires s'.phase == Committing(s.phase.from, s.phase.was, s.phase.done + 1)
    requires s'.ops == s.ops && s'.lh == s.lh && s'.mem == s.mem
    requires s'.durable == if s'.phase.done <= |s.lh| then s.phase.was else s.mem
    requires
      var w := CommitWrites(g, s.phase.from, s.lh, s.mem)[s.phase.done];
      w.block < |s.disk| && s'.disk == s.disk[w.block := w.data]
    ensures CommittingInv(g, s')
  {
    hide Clean, CommitWrites, Apply, CacheHolds, Loggable;
    ApplyOne(s.phase.from, CommitWrites(g, s.phase.from, s.lh, s.mem), s.phase.done);
  }

  lemma WritesInRange(g: Geometry, s: System)
    requires Inv(g, s) && s.phase.Committing?
    ensures
      var ws := CommitWrites(g, s.phase.from, s.lh, s.mem);
      |s.phase.was| == g.nblocks && forall i | 0 <= i < |ws| :: ws[i].block < |s.disk|
  {
    hide Clean, CommitWrites, Apply, CacheHolds, Loggable, Unspent;
  }

  /** The commit has writes left to do. */
  ghost predicate WritesLeft(g: Geometry, s: System)
    requires Inv(g, s) && s.phase.Committing?
  {
    s.phase.done < |CommitWrites(g, s.phase.from, s.lh, s.mem)|
  }

  lemma FlushWrites(g: Geometry, s: System)
    requires Inv(g, s) && s.phase.Committing? && WritesLeft(g, s)
    ensures Inv(g, Flushed(g, s))
  {
    hide CommittingInv, OpenInv, RecoveringInv, CommitWrites, Unspent, Loggable, Recovers, Clean;
    WritesInRange(g, s);
    NextWrite(g, s, Flushed(g, s));
  }

  /** The last write of a commit leaves the log empty and the cache in agreement with the disk. */
  lemma FlushedOpen(g: Geometry, s: System)
    requires Inv(g, s) && s.phase.Committing?
    requires s.phase.done == |CommitWrites(g, s.phase.from, s.lh, s.mem)|
    ensures OpenInv(g, s.(phase := Open, lh := []))
  {
    hide Clean, CommitWrites, Apply, Unspent, Loggable;
    var Committing(from, was, done) := s.phase;
    CommitCrash(g, from, s.lh, s.mem, was, done);
    var ws := CommitWrites(g, from, s.lh, s.mem);
    assert ws[..done] == ws;
    if s.lh != [] {
      CommitLogging(g, from, s.lh, s.mem, was, 0);
    }
  }

  lemma FlushEnds(g: Geometry, s: System)
    requires Inv(g, s) && s.phase.Committing?
    requires s.phase.done == |CommitWrites(g, s.phase.from, s.lh, s.mem)|
    ensures Inv(g, Do(g, s, Flush))
  {
    hide CommittingInv, OpenInv, RecoveringInv, CommitWrites, Unspent, Recovers, Clean;
    FlushedOpen(g, s);
  }

  lemma CrashKeeps(g: Geometry, s: System)
    requires Inv(g, s)
    ensures Inv(g, Do(g, s, Crash))
  {
    hide CommittingInv, OpenInv, RecoveryWrites, Clean;
    AlwaysRecovers(g, s);
    RecoveryCrash(g, s.disk, s.durable, 0);
    assert RecoveryWrites(g, s.disk)[..0] == [];
  }

  lemma ReplayKeeps(g: Geometry, s: System)
    requires Inv(g, s) && Enabled(g, s, Replay)
    ensures Inv(g, Do(g, s, Replay))
  {
    hide Clean, RecoveryWrites, Apply, Unspent, CommittingInv, Loggable;
    var Recovering(from, done) := s.phase;
    var ws := RecoveryWrites(g, from);
    RecoveryCrash(g, from, s.durable, done);
    if done < |ws| {
      ApplyOne(from, ws, done);
    } else {
      assert ws[..done] == ws;
    }
  }

  lemma StepKeeps(g: Geometry, s: System, step: Step)
    requires Inv(g, s) && Enabled(g, s, step)
    ensures Inv(g, Do(g, s, step))
  {
    match step
    case Begin(op) => BeginKeeps(g, s, op);
    case Log(op, b, data) => LogKeeps(g, s, op, b, data);
    case End(op) => EndKeeps(g, s, op);
    case Flush =>
      if WritesLeft(g, s) {
        FlushWrites(g, s);
      } else {
        FlushEnds(g, s);
      }
    case Crash => CrashKeeps(g, s);
    case Replay => ReplayKeeps(g, s);
  }

  // ----- whole runs -----

  ghost predicate CanRun(g: Geometry, s: System, steps: seq<Step>)
    requires Inv(g, s)
    decreases |steps|
  {
    steps == [] ||
    (Enabled(g, s, steps[0]) && (StepKeeps(g, s, steps[0]); CanRun(g, Do(g, s, steps[0]), steps[1..])))
  }

  ghost function After(g: Geometry, s: System, steps: seq<Step>): (r: System)
    requires Inv(g, s) && CanRun(g, s, steps)
    ensures Inv(g, r)
    decreases |steps|
  {
    if steps == [] then s
    else
      StepKeeps(g, s, steps[0]);
      After(g, Do(g, s, steps[0]), steps[1..])
  }

  /** A machine just booted from a disk that stands for `v`; initlog will replay the log. */
  ghost function Booted(g: Geometry, disk: Disk, v: Disk): (s: System)
    requires Recovers(g, disk, v)
    ensures Inv(g, s)
  {
    RecoveryCrash(g, disk, v, 0);
    assert RecoveryWrites(g, disk)[..0] == [];
    System(disk, disk, [], map[], Recovering(disk, 0), v)
  }

  /** Safety over every run from boot, however operations, commits, crashes and recoveries
      interleave: the disk always recovers to the last committed contents, reserved space never
      exceeds the log, no block is listed twice, and a commit has the log to itself. */
  lemma RunSafety(g: Geometry, disk: Disk, v: Disk, steps: seq<Step>)
    requires Recovers(g, disk, v) && CanRun(g, Booted(g, disk, v), steps)
    ensures
      var s := After(g, Booted(g, disk, v), steps);
      && Recovers(g, s.disk, s.durable)
      && |s.lh| + Unspent(s.ops) <= LOGSIZE
      && 0 <= Unspent(s.ops)
      && Distinct(s.lh)
      && (s.phase.Committing? ==> s.ops == map[])
  {
    var s := After(g, Booted(g, disk, v), steps);
    AlwaysRecovers(g, s);
    UnspentBounds(s.ops);
  }

  /** A disk stands for one contents only, outside the log. */
  lemma StandsForOne(g: Geometry, d: Disk, v: Disk, w: Disk)
    requires Recovers(g, d, v) && Recovers(g, d, w)
    ensures SameHome(g, v, w)
  {
    var lh := Listed(d[g.start]);
    forall b | g.Home(b) ensures v[b] == w[b] {
      if b in lh {
        var i :| 0 <= i < |lh| && lh[i] == b;
      }
    }
  }

  /** What the disk would recover to changes in one place only: at the header write of a commit,
      when no operation is outstanding, and then to the cached contents. */
  lemma DiskChangesAtHeader(g: Geometry, s: System, step: Step, v: Disk, v': Disk)
    requires Inv(g, s) && Enabled(g, s, step)
    requires Recovers(g, s.disk, v) && Recovers(g, Do(g, s, step).disk, v')
    ensures
      || SameHome(g, v, v')
      || (step.Flush? && s.phase.Committing? && s.ops == map[] && s.phase.done == |s.lh| && SameHome(g, v', s.mem))
  {
    hide Inv, Do, Recovers, SameHome, Enabled;
    var s' := Do(g, s, step);
    StepKeeps(g, s, step);
    AlwaysRecovers(g, s);
    AlwaysRecovers(g, s');
    StandsForOne(g, s.disk, v, s.durable);
    StandsForOne(g, s'.disk, v', s'.durable);
    DurableStep(g, s, step);
    SameHomeChain(g, v, s.durable, v');
  }

  lemma DurableStep(g: Geometry, s: System, step: Step)
    requires Inv(g, s) && Enabled(g, s, step)
    ensures
      var t := Do(g, s, step).durable;
      t == s.durable || (step.Flush? && s.phase.Committing? && s.ops == map[] && s.phase.done == |s.lh| && t == s.mem)
  {
    hide OpenInv, RecoveringInv, Recovers, Clean, CacheHolds, Loggable, Unspent, CommitWrites, RecoveryWrites, Apply;
  }

  lemma SameHomeChain(g: Geometry, u: Disk, v: Disk, w: Disk)
    requires SameHome(g, u, v)
    ensures SameHome(g, w, v) ==> SameHome(g, u, w)
  {
  }

  /** A state that a crash, or a completed recovery, left behind. */
  ghost predicate Settled(g: Geometry, s: System, v: Disk) {
    && Inv(g, s)
    && s.durable == v
    && (s.phase.Recovering? || (s.phase.Open? && SameHome(g, s.disk, v) && SameHome(g, s.mem, v)))
  }

  lemma {:induction false} SettledRun(g: Geometry, s: System, v: Disk, steps: seq<Step>)
    requires Settled(g, s, v)
    requires forall i | 0 <= i < |steps| :: steps[i].Crash? || steps[i].Replay?
    requires CanRun(g, s, steps)
    ensures Settled(g, After(g, s, steps), v)
    decreases |steps|
  {
    if steps != [] {
      StepKeeps(g, s, steps[0]);
      SettledStep(g, s, v, steps[0]);
      SettledRun(g, Do(g, s, steps[0]), v, steps[1..]);
    }
  }

  lemma SettledStep(g: Geometry, s: System, v: Disk, step: Step)
    requires Settled(g, s, v) && Enabled(g, s, step) && (step.Crash? || step.Replay?)
    ensures Settled(g, Do(g, s, step), v)
  {
    StepKeeps(g, s, step);
    if step.Replay? {
      var ws := RecoveryWrites(g, s.phase.from);
      if s.phase.done == |ws| {
        RecoveryCrash(g, s.phase.from, s.durable, |ws|);
      }
    }
    hide Recovers, CommittingInv, OpenInv, Loggable, Apply;
  }

  /** Crash in any state, then crash during recovery as often as one likes: whenever a recovery
      does finish, every block outside the log holds the last committed contents, on disk and
      through the cache. */
  lemma CrashKeepsCommitted(g: Geometry, s: System, steps: seq<Step>)
    requires Inv(g, s)
    requires |steps| > 0 && steps[0].Crash?
    requires forall i | 0 <= i < |steps| :: steps[i].Crash? || steps[i].Replay?
    requires CanRun(g, s, steps)
    ensures
      var r := After(g, s, steps);
      r.durable == s.durable &&
      (r.phase.Open? ==> SameHome(g, r.disk, s.durable) && SameHome(g, r.mem, s.durable))
  {
    StepKeeps(g, s, Crash);
    SettledRun(g, Do(g, s, Crash), s.durable, steps[1..]);
  }

  // ----- what the operations wrote -----

  /** The data of the last log_write of block b in a list of steps, or v if there is none. */
  function LastLogged(steps: seq<Step>, b: nat, v: Block): Block {
    if steps == [] then v
    else
      match steps[|steps| - 1]
      case Log(_, b', data) => if b' == b then data else LastLogged(steps[..|steps| - 1], b, v)
      case _ => LastLogged(steps[..|steps| - 1], b, v)
  }

  /** What log_write left in the cache, and that a transaction is open only while an operation is. */
  ghost predicate Follows(g: Geometry, s: System, steps: seq<Step>, disk: Disk) {
    && |s.mem| == |disk| == g.nblocks
    && (forall b | g.Home(b) :: s.mem[b] == LastLogged(steps, b, disk[b]))
    && (s.phase.Open? && s.ops == map[] ==> s.lh == [])
    && !s.phase.Recovering?
  }

  lemma FollowsStep(g: Geometry, s: System, steps: seq<Step>, disk: Disk, step: Step)
    requires Inv(g, s) && Enabled(g, s, step) && Follows(g, s, steps, disk) && !step.Crash?
    ensures Follows(g, Do(g, s, step), steps + [step], disk)
  {
    hide OpenInv, CommittingInv, RecoveringInv, Loggable, Unspent, CommitWrites, RecoveryWrites, LastLogged;
    var s' := Do(g, s, step);
    assert step.Begin? || step.Log? ==> step.op in s'.ops;
    assert s'.mem == if step.Log? then s.mem[step.block := step.data] else s.mem;
    forall b | g.Home(b) ensures s'.mem[b] == LastLogged(steps + [step], b, disk[b]) {
      LastLoggedMore(steps, step, b, disk[b]);
    }
  }

  lemma LastLoggedMore(steps: seq<Step>, step: Step, b: nat, v: Block)
    ensures LastLogged(steps + [step], b, v) == if step.Log? && step.block == b then step.data else LastLogged(steps, b, v)
  {
    assert (steps + [step])[..|steps|] == steps;
  }

  lemma {:induction false} FollowsRun(g: Geometry, s: System, before: seq<Step>, steps: seq<Step>, disk: Disk)
    requires Inv(g, s) && CanRun(g, s, steps) && Follows(g, s, before, disk)
    requires forall i | 0 <= i < |steps| :: !steps[i].Crash?
    ensures Follows(g, After(g, s, steps), before + steps, disk)
    decreases |steps|
  {
    hide Inv, Enabled, Do, Follows;
    if steps == [] {
      assert before + steps == before;
    } else {
      StepKeeps(g, s, steps[0]);
      FollowsStep(g, s, before, disk, steps[0]);
      FollowsRun(g, Do(g, s, steps[0]), before + [steps[0]], steps[1..], disk);
      assert before + [steps[0]] + steps[1..] == before + steps;
    }
  }

  /** An empty log after boot, with the cache and the disk in agreement. */
  ghost function Fresh(disk: Disk): System { System(disk, disk, [], map[], Open, disk) }

  /** Once nothing is outstanding and no commit runs, every block outside the log holds the data of the
      last log_write of it in the run, or its old contents if there was none, on disk and through the
      cache. */
  lemma FinishedAreDurable(g: Geometry, disk: Disk, steps: seq<Step>)
    requires Recovers(g, disk, disk) && Clean(g, disk)
    requires CanRun(g, Fresh(disk), steps) && forall i | 0 <= i < |steps| :: !steps[i].Crash?
    ensures
      var s := After(g, Fresh(disk), steps);
      s.phase.Open? && s.ops == map[] ==>
        |s.disk| == |s.mem| == |disk| == g.nblocks &&
        forall b | g.Home(b) :: s.disk[b] == s.mem[b] == LastLogged(steps, b, disk[b])
  {
    var s := After(g, Fresh(disk), steps);
    assert Follows(g, Fresh(disk), [], disk);
    FollowsRun(g, Fresh(disk), [], steps, disk);
    assert [] + steps == steps;
  }

  /** What finished before a crash survives it, and what did not begin to commit leaves no trace. The
      operations of `open` begin, log and end without a disk write; then the machine crashes, any
      number of times. */
  lemma UnfinishedLeaveNoTrace(g: Geometry, disk: Disk, steps: seq<Step>, open: seq<Step>, after: seq<Step>)
    requires Recovers(g, disk, disk) && Clean(g, disk)
    requires CanRun(g, Fresh(disk), steps) && forall i | 0 <= i < |steps| :: !steps[i].Crash?
    requires After(g, Fresh(disk), steps).phase.Open? && After(g, Fresh(disk), steps).ops == map[]
    requires CanRun(g, After(g, Fresh(disk), steps), open)
    requires forall i | 0 <= i < |open| :: open[i].Begin? || open[i].Log? || open[i].End?
    requires |after| > 0 && after[0].Crash? && forall i | 0 <= i < |after| :: after[i].Crash? || after[i].Replay?
    requires CanRun(g, After(g, After(g, Fresh(disk), steps), open), after)
    ensures
      var r := After(g, After(g, After(g, Fresh(disk), steps), open), after);
      r.phase.Open? ==>
        |r.disk| == |r.mem| == |disk| == g.nblocks &&
        forall b | g.Home(b) :: r.disk[b] == r.mem[b] == LastLogged(steps, b, disk[b])
  {
    hide Do, Enabled, CanRun, After;
    FinishedAreDurable(g, disk, steps);
    var s := After(g, Fresh(disk), steps);
    SettledDurable(g, s);
    OpenKeepsDurable(g, s, open);
    CrashKeepsCommitted(g, After(g, s, open), after);
  }

  lemma SettledDurable(g: Geometry, s: System)
    requires Inv(g, s) && s.phase.Open?
    ensures SameHome(g, s.disk, s.durable)
  {
  }

  lemma {:induction false} OpenKeepsDurable(g: Geometry, s: System, steps: seq<Step>)
    requires Inv(g, s) && CanRun(g, s, steps)
    requires forall i | 0 <= i < |steps| :: steps[i].Begin? || steps[i].Log? || steps[i].End?
    ensures After(g, s, steps).durable == s.durable
    decreases |steps|
  {
    hide Inv, Enabled;
    if steps != [] {
      StepKeeps(g, s, steps[0]);
      OpenKeepsDurable(g, Do(g, s, steps[0]), steps[1..]);
    }
  }

  // ----- the guard of log_write -----

  /** When the guard fires on an operation that keeps its promise. With more than LOGSIZE blocks of
      log area, exactly when LOGSIZE blocks are logged: the guard comes before the search for the
      block, so logging a block again is refused too. Then no reservation is left, and the block is
      one of those logged; a new block is never refused. */
  lemma GuardExactly(g: Geometry, s: System, op: nat, b: nat)
    requires Inv(g, s) && WithinPromise(s, op, b)
    ensures g.size > LOGSIZE ==> (!HasRoom(g, s) <==> |s.lh| == LOGSIZE)
    ensures |s.lh| == LOGSIZE ==> b in s.lh && Unspent(s.ops) == 0
  {
    UnspentOf(s.ops, op);
    UnspentBounds(s.ops - {op});
  }

  ghost predicate Reaches(g: Geometry, s0: System, steps: seq<Step>, s: System) {
    Inv(g, s0) && CanRun(g, s0, steps) && After(g, s0, steps) == s
  }

  lemma ReachesOne(g: Geometry, s0: System, steps: seq<Step>, s: System, step: Step)
    requires Reaches(g, s0, steps, s)
    ensures Inv(g, s)
    ensures Enabled(g, s, step) ==> Reaches(g, s0, steps + [step], Do(g, s, step))
  {
    if Enabled(g, s, step) {
      RunOne(g, s0, steps, step);
    }
  }

  /** Operation op's share of the first k blocks when three operations add ten blocks each. */
  function Share(k: nat, op: nat): nat {
    if k <= 10 * op then 0 else if k >= 10 * op + 10 then 10 else k - 10 * op
  }

  function Shares(k: nat): map<nat, nat> {
    map[0 := Share(k, 0), 1 := Share(k, 1), 2 := Share(k, 2)]
  }

  ghost predicate Filling(g: Geometry, s: System, homes: seq<nat>, k: nat)
    requires k <= |homes|
  {
    Inv(g, s) && s.phase.Open? && s.lh == homes[..k] && s.ops == Shares(k)
  }

  lemma ThreeOperations(g: Geometry, disk: Disk, homes: seq<nat>) returns (steps: seq<Step>, s: System)
    requires Recovers(g, disk, disk) && Clean(g, disk)
    ensures Reaches(g, System(disk, disk, [], map[], Open, disk), steps, s)
    ensures Filling(g, s, homes, 0)
  {
    var s0 := System(disk, disk, [], map[], Open, disk);
    assert Inv(g, s0);
    assert Reaches(g, s0, [], s0);
    hide Reaches, OpenInv, Loggable, Unspent;
    ReachesOne(g, s0, [], s0, Begin(0));
    var s1 := Do(g, s0, Begin(0));
    ReachesOne(g, s0, [] + [Begin(0)], s1, Begin(1));
    var s2 := Do(g, s1, Begin(1));
    ReachesOne(g, s0, [] + [Begin(0)] + [Begin(1)], s2, Begin(2));
    s := Do(g, s2, Begin(2));
    steps := [] + [Begin(0)] + [Begin(1)] + [Begin(2)];
    BeginKeeps(g, s2, 2);
  }

  lemma FillOne(g: Geometry, s: System, homes: seq<nat>, k: nat)
    requires |homes| == LOGSIZE && Distinct(homes) && forall i | 0 <= i < LOGSIZE :: g.Home(homes[i])
    requires k < LOGSIZE && k < g.size - 1 && Filling(g, s, homes, k)
    ensures
      var step := Log(k / 10, homes[k], []);
      Enabled(g, s, step) && Filling(g, Do(g, s, step), homes, k + 1)
  {
    hide OpenInv, Loggable, Unspent;
    assert homes[k] !in homes[..k];
    LogKeeps(g, s, k / 10, homes[k], []);
  }

  /** Three operations log n blocks between them. */
  lemma FillTo(g: Geometry, disk: Disk, homes: seq<nat>, n: nat) returns (steps: seq<Step>, s: System)
    requires Recovers(g, disk, disk) && Clean(g, disk)
    requires |homes| == LOGSIZE && Distinct(homes) && forall i | 0 <= i < LOGSIZE :: g.Home(homes[i])
    requires n <= LOGSIZE && n <= g.size - 1
    ensures Reaches(g, System(disk, disk, [], map[], Open, disk), steps, s)
    ensures Filling(g, s, homes, n)
  {
    steps, s := ThreeOperations(g, disk, homes);
    hide Reaches, Inv, Filling, Enabled, Do, WithinPromise, HasRoom;
    var k := 0;
    while k < n
      invariant 0 <= k <= n
      invariant Reaches(g, System(disk, disk, [], map[], Open, disk), steps, s)
      invariant Filling(g, s, homes, k)
    {
      var step := Log(k / 10, homes[k], []);
      assert Inv(g, s) by { ReachesOne(g, System(disk, disk, [], map[], Open, disk), steps, s, step); }
      FillOne(g, s, homes, k);
      ReachesOne(g, System(disk, disk, [], map[], Open, disk), steps, s, step);
      s := Do(g, s, step);
      steps := steps + [step];
      k := k + 1;
    }
  }

  lemma FilledRefuses(g: Geometry, s: System, homes: seq<nat>, k: nat)
    requires |homes| == LOGSIZE && Distinct(homes) && g.size <= LOGSIZE && k == g.size - 1
    requires Filling(g, s, homes, k)
    ensures s.phase.Open? && homes[k] !in s.lh && WithinPromise(s, k / 10, homes[k]) && !HasRoom(g, s)
  {
    hide Inv;
  }

  /** With a log area of at most LOGSIZE blocks, which is what mkfs makes, even a new block is
      refused: three operations run, and log_write panics on block number `size - 1`, although its
      operation has reservation left. */
  lemma NewBlockRefused(g: Geometry, disk: Disk, homes: seq<nat>)
      returns (steps: seq<Step>, s: System, op: nat, b: nat)
    requires Recovers(g, disk, disk) && Clean(g, disk) && g.size <= LOGSIZE
    requires |homes| == LOGSIZE && Distinct(homes) && forall i | 0 <= i < LOGSIZE :: g.Home(homes[i])
    ensures Reaches(g, System(disk, disk, [], map[], Open, disk), steps, s)
    ensures s.phase.Open? && g.Home(b) && b !in s.lh && WithinPromise(s, op, b) && !HasRoom(g, s)
  {
    hide Reaches, Inv, Filling, Distinct, WithinPromise, HasRoom, Clean;
    var k := g.size - 1;
    steps, s := FillTo(g, disk, homes, k);
    op, b := k / 10, homes[k];
    FilledRefuses(g, s, homes, k);
  }

  /** With a larger one, three operations that add ten blocks each fill the log, and then the first
      one's log_write of a block it has logged before panics. */
  lemma LoggedBlockRefused(g: Geometry, disk: Disk, homes: seq<nat>)
      returns (steps: seq<Step>, s: System, op: nat, b: nat)
    requires Recovers(g, disk, disk) && Clean(g, disk) && g.size > LOGSIZE
    requires |homes| == LOGSIZE && Distinct(homes) && forall i | 0 <= i < LOGSIZE :: g.Home(homes[i])
    ensures Reaches(g, System(disk, disk, [], map[], Open, disk), steps, s)
    ensures s.phase.Open? && g.Home(b) && b in s.lh && WithinPromise(s, op, b) && !HasRoom(g, s)
  {
    steps, s := FillTo(g, disk, homes, LOGSIZE);
    op, b := 0, homes[0];
  }

  lemma {:induction false} RunOne(g: Geometry, s: System, steps: seq<Step>, step: Step)
    requires Inv(g, s) && CanRun(g, s, steps)
    requires Enabled(g, After(g, s, steps), step)
    ensures CanRun(g, s, steps + [step])
    ensures After(g, s, steps + [step]) == Do(g, After(g, s, steps), step)
    decreases |steps|
  {
    hide Inv, Enabled, Do;
    if steps == [] {
      assert (steps + [step])[1..] == [];
      StepKeeps(g, s, step);
    } else {
      StepKeeps(g, s, steps[0]);
      RunOne(g, Do(g, s, steps[0]), steps[1..], step);
      assert (steps + [step])[1..] == steps[1..] + [step];
    }
  }
}
