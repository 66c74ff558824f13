/** The functions of src/log.c as methods on the log's state, each tied to the list of block
    writes it performs. */
module LogOps {
  import opened RedoLog

  /** log absorption: a block already in the transaction is not listed again. */
  function Absorb(lh: seq<int>, b: int): (r: seq<int>)
    ensures b in r && forall x :: x in r <==> x in lh || x == b
    ensures lh <= r && |r| == |lh| + (if b in lh then 0 else 1)
    ensures Distinct(lh) ==> Distinct(r)
  {
    if b in lh then lh else lh + [b]
  }

  /** Log blocks are only ever changed by bwrite, so the cached copies are the disk's. */
  ghost predicate Agree(g: Geometry, disk: Disk, mem: Disk)
    requires g.Valid() && |disk| == |mem| == g.nblocks
  {
    forall b | g.start <= b < g.start + g.size :: mem[b] == disk[b]
  }

  /** Outside the transaction `lh`, reads return the contents `v`. */
  ghost predicate CacheHolds(g: Geometry, mem: Disk, v: Disk, lh: seq<int>) {
    |mem| == |v| == g.nblocks && forall b | g.Home(b) && b !in lh :: mem[b] == v[b]
  }

  /** The writes `ws` took the disk and the cached contents from d, m to d', m'. */
  ghost predicate Performed(d: Disk, m: Disk, ws: seq<Write>, d': Disk, m': Disk) {
    |d| == |m| && InRange(d, ws) && d' == Apply(d, ws) && m' == Apply(m, ws)
  }

  lemma PerformNone(d: Disk, m: Disk, ws: seq<Write>)
    requires |d| == |m|
    ensures Performed(d, m, ws[..0], d, m)
  {
  }

  lemma PerformOne(d: Disk, m: Disk, ws: seq<Write>, k: nat, d': Disk, m': Disk)
    requires InRange(d, ws) && k < |ws|
    requires Performed(d, m, ws[..k], d', m')
    ensures |d'| == |m'| == |d|
    ensures Performed(d, m, ws[..k + 1], d'[ws[k].block := ws[k].data], m'[ws[k].block := ws[k].data])
  {
    ApplyOne(d, ws, k);
    ApplyOne(m, ws, k);
  }

  class Log {
    const g: Geometry
    var disk: Disk
    var mem: Disk                  // what bread returns for each block
    var n: int                     // lh.n
    const block: array<int>        // lh.block
    var outstanding: int
    var committing: bool
    ghost var writes: seq<Write>   // every disk write so far, oldest first

    ghost predicate Valid()
      reads this, block
    {
      && g.Valid()
      && |disk| == |mem| == g.nblocks
      && block.Length == LOGSIZE
      && 0 <= n <= LOGSIZE
      && |mem[g.start]| == |disk[g.start]| == WORDS
      && Agree(g, disk, mem)
    }

    ghost function Lh(): seq<int>
      requires Valid()
      reads this, block
    {
      block[..n]
    }

    /** initlog: a machine that has just booted, with an empty cache, recovers from its log. */
    constructor (g: Geometry, disk: Disk, ghost v: Disk)
      requires Recovers(g, disk, v)
      ensures Valid() && fresh(block) && Lh() == [] && outstanding == 0 && !committing && this.g == g
      ensures Recovers(g, this.disk, v) && Clean(g, this.disk) && SameHome(g, this.disk, v) && SameHome(g, mem, v)
      ensures writes == RecoveryWrites(g, disk)
    {
      this.g := g;
      this.disk := disk;
      this.mem := disk;
      n := 0;
      block := new int[LOGSIZE];
      outstanding := 0;
      committing := false;
      writes := [];
      new;
      RecoverFromLog(v);
      assert [] + RecoveryWrites(g, disk) == RecoveryWrites(g, disk);
    }

    method Bwrite(b: nat, data: Block)
      requires Valid() && b < g.nblocks && (b == g.start ==> |data| == WORDS)
      modifies `disk, `mem, `writes
      ensures Valid()
      ensures disk == old(disk)[b := data] && mem == old(mem)[b := data]
      ensures writes == old(writes) + [Write(b, data)]
    {
      mem := mem[b := data];
      disk := disk[b := data];
      writes := writes + [Write(b, data)];
    }

    method ReadHead()
      requires Valid() && HeaderOk(disk[g.start])
      modifies `n, block
      ensures Valid() && Lh() == Listed(disk[g.start])
      ensures n == disk[g.start][0] && forall i | 0 <= i < n :: block[i] == disk[g.start][1 + i]
    {
      var lh := mem[g.start];
      n := lh[0];
      var i := 0;
      while i < n
        invariant 0 <= i <= n == lh[0]
        invariant forall j | 0 <= j < i :: block[j] == lh[1 + j]
        modifies block
      {
        block[i] := lh[1 + i];
        i := i + 1;
      }
      assert block[..n] == lh[1..1 + n];
    }

    method WriteHead()
      requires Valid()
      modifies `disk, `mem, `writes
      ensures Valid()
      ensures
        var h := Header(old(disk[g.start]), Lh());
        && disk == old(disk)[g.start := h]
        && mem == old(mem)[g.start := h]
        && writes == old(writes) + [Write(g.start, h)]
    {
      var hb := mem[g.start];
      hb := hb[0 := n];
      var i := 0;
      while i < n
        invariant 0 <= i <= n
        invariant hb == [n] + block[..i] + disk[g.start][1 + i..]
      {
        hb := hb[1 + i := block[i]];
        i := i + 1;
      }
      Bwrite(g.start, hb);
    }

    method WriteLog()
      requires Valid() && Loggable(g, Lh())
      modifies `disk, `mem, `writes
      ensures Valid()
      ensures Performed(old(disk), old(mem), LogWrites(g, Lh(), old(mem)), disk, mem)
      ensures forall b | 0 <= b < g.nblocks ::
        disk[b] == if g.start < b <= g.start + n then old(mem)[block[b - g.start - 1]] else old(disk)[b]
      ensures writes == old(writes) + LogWrites(g, Lh(), old(mem))
    {
      hide Performed, Loggable, LogWrites, Filled, Agree, Apply, InRange;
      ghost var lh, d, m := Lh(), disk, mem;
      ghost var ws := LogWrites(g, lh, mem);
      LoggingStart(g, d, m, lh);
      var tail := 0;
      while tail < n
        invariant 0 <= tail <= n
        invariant Valid()
        invariant Performed(d, m, ws[..tail], disk, mem)
        invariant writes == old(writes) + ws[..tail]
      {
        LoggingStep(g, m, lh, tail, d, disk, mem);
        PerformOne(d, m, ws, tail, disk, mem);
        Bwrite(g.start + tail + 1, mem[block[tail]]);
        tail := tail + 1;
      }
      assert ws[..n] == ws;
      LogWritten(g, d, m, lh, disk, mem);
    }

    method InstallTrans()
      requires Valid() && Loggable(g, Lh())
      modifies `disk, `mem, `writes
      ensures Valid()
      ensures Performed(old(disk), old(mem), InstallWrites(g, Lh(), old(disk)), disk, mem)
      ensures forall b | 0 <= b < g.nblocks && b !in Lh() :: disk[b] == old(disk)[b]
      ensures forall i | 0 <= i < n :: disk[block[i]] == old(disk)[g.start + 1 + i]
      ensures writes == old(writes) + InstallWrites(g, Lh(), old(disk))
    {
      hide Performed, Loggable, InstallWrites, Agree, Apply, InRange;
      ghost var lh, d, m := Lh(), disk, mem;
      ghost var ws := InstallWrites(g, lh, disk);
      InstallInRange(g, disk, lh);
      PerformNone(d, m, ws);
      var tail := 0;
      while tail < n
        invariant 0 <= tail <= n
        invariant Valid()
        invariant Performed(d, m, ws[..tail], disk, mem)
        invariant writes == old(writes) + ws[..tail]
      {
        InstallStep(g, d, lh, tail, m, disk, mem);
        PerformOne(d, m, ws, tail, disk, mem);
        Bwrite(block[tail], mem[g.start + tail + 1]);
        tail := tail + 1;
      }
      assert ws[..n] == ws;
      HomeWritten(g, d, m, lh, disk, mem);
    }

    /** The common end of commit and of recovery: install the listed blocks, then erase the
        transaction from the log. */
    method InstallAndErase(ghost v: Disk)
      requires Valid() && Recovers(g, disk, v) && Lh() == Listed(disk[g.start])
      requires CacheHolds(g, mem, v, Lh())
      modifies `disk, `mem, `writes, `n
      ensures Valid() && Lh() == []
      ensures Recovers(g, disk, v) && Clean(g, disk)
      ensures SameHome(g, disk, v) && SameHome(g, mem, v)
      ensures writes == old(writes) + RecoveryWrites(g, old(disk))
    {
      ghost var lh, d1, m1 := Lh(), disk, mem;
      hide SameHome, Performed, Agree, Clean, Apply, CacheHolds;
      InstallTrans();
      AfterInstall(g, d1, m1, lh, v, disk, mem);
      n := 0;
      WriteHead();
    }

    /** Run at boot, before anything is cached. Whatever contents the disk stood for are the
        contents of the home blocks afterwards, and the log is empty. */
    method RecoverFromLog(ghost v: Disk)
      requires Valid() && Recovers(g, disk, v) && mem == disk
      modifies this, block
      ensures Valid() && Lh() == []
      ensures Recovers(g, disk, v) && Clean(g, disk)
      ensures SameHome(g, disk, v) && SameHome(g, mem, v)
      ensures writes == old(writes) + RecoveryWrites(g, old(disk))
      ensures outstanding == old(outstanding) && committing == old(committing)
    {
      ReadHead();
      InstallAndErase(v);
    }

    /** Group commit: performs exactly the writes that CommitCrash analyses, and leaves the
        transaction in the home blocks. */
    method Commit(ghost v: Disk)
      requires Valid() && Recovers(g, disk, v) && Clean(g, disk)
      requires Loggable(g, Lh()) && CacheHolds(g, mem, v, Lh())
      modifies `disk, `mem, `writes, `n
      ensures Valid() && Lh() == []
      ensures Recovers(g, disk, old(mem)) && Clean(g, disk)
      ensures SameHome(g, disk, old(mem)) && SameHome(g, mem, old(mem))
      ensures writes == old(writes) + CommitWrites(g, old(disk), old(Lh()), old(mem))
    {
      hide Recovers, Clean, SameHome, Performed, Loggable, Agree, Apply, CacheHolds, LogWrites,
        CommitWrites, RecoveryWrites;
      ghost var lh, d, m := Lh(), disk, mem;
      if n > 0 {
        CommitParts(g, d, lh, m, v, writes);
        WriteLog();
        AfterLogging(g, d, m, lh, disk, mem);
        WriteHead();
        assert writes == old(writes) + Logged(g, d, lh, m);
        InstallAndErase(m);
      } else {
        CommitNothing(g, d, m, v);
      }
    }

    /** One pass of the loop in begin_op: admit the operation, or leave it to sleep. */
    method TryBeginOp() returns (admitted: bool)
      requires Valid()
      modifies `outstanding
      ensures admitted <==> !committing && n + (old(outstanding) + 1) * MAXOPBLOCKS <= LOGSIZE
      ensures outstanding == if admitted then old(outstanding) + 1 else old(outstanding)
    {
      if committing {
        admitted := false;
      } else if n + (outstanding + 1) * MAXOPBLOCKS > LOGSIZE {
        admitted := false;
      } else {
        outstanding := outstanding + 1;
        admitted := true;
      }
    }

    /** log_write of a buffer for block b that now holds `data`. Returns false where the source
        panics. */
    method LogWrite(b: nat, data: Block) returns (ok: bool)
      requires Valid() && g.Home(b) && Distinct(Lh())
      modifies `mem, `n, block
      ensures Valid() && Distinct(Lh())
      ensures ok <==> old(n) < LOGSIZE && old(n) < g.size - 1 && outstanding >= 1
      ensures Lh() == if ok then Absorb(old(Lh()), b) else old(Lh())
      ensures mem == old(mem)[b := data]
    {
      mem := mem[b := data];
      if n >= LOGSIZE || n >= g.size - 1 {
        return false;
      }
      if outstanding < 1 {
        return false;
      }
      ghost var lh := Lh();
      var i := 0;
      while i < n && block[i] != b
        invariant 0 <= i <= n
        invariant b !in lh[..i]
      {
        i := i + 1;
      }
      block[i] := b;
      if i == n {
        assert lh[..n] == lh;
        n := n + 1;
        assert Lh() == lh + [b];
      } else {
        assert lh[i] == b && Lh() == lh;
      }
      ok := true;
    }

    /** end_op: the last operation out commits. Returns false where the source panics. */
    method EndOp(ghost v: Disk) returns (ok: bool)
      requires Valid() && Recovers(g, disk, v) && Clean(g, disk)
      requires Loggable(g, Lh()) && CacheHolds(g, mem, v, Lh())
      modifies `disk, `mem, `writes, `n, `outstanding, `committing
      ensures Valid() && outstanding == old(outstanding) - 1
      ensures ok <==> !old(committing)
      ensures committing == old(committing)
      ensures ok && outstanding == 0 ==>
                && Lh() == [] && Recovers(g, disk, old(mem)) && Clean(g, disk)
                && SameHome(g, disk, old(mem)) && SameHome(g, mem, old(mem))
                && writes == old(writes) + CommitWrites(g, old(disk), old(Lh()), old(mem))
      ensures !(ok && outstanding == 0) ==>
                Lh() == old(Lh()) && disk == old(disk) && mem == old(mem) && writes == old(writes)
    {
      outstanding := outstanding - 1;
      if committing {
        return false;
      }
      if outstanding == 0 {
        committing := true;
        Commit(v);
        committing := false;
      }
      ok := true;
    }
  }

  /** The writes of commit up to and including the header. */
  ghost function Logged(g: Geometry, d: Disk, lh: seq<int>, m: Disk): seq<Write>
    requires g.Valid() && |d| == |m| == g.nblocks && Loggable(g, lh) && |d[g.start]| == WORDS
  {
    LogWrites(g, lh, m) + [Write(g.start, Header(d[g.start], lh))]
  }

  lemma CommitNothing(g: Geometry, d: Disk, m: Disk, v: Disk)
    requires Recovers(g, d, v) && Clean(g, d) && CacheHolds(g, m, v, [])
    ensures Recovers(g, d, m) && SameHome(g, d, m) && SameHome(g, m, m)
    ensures CommitWrites(g, d, [], m) == []
  {
  }

  lemma CommitParts(g: Geometry, d: Disk, lh: seq<int>, m: Disk, v: Disk, w: seq<Write>)
    requires Recovers(g, d, v) && Clean(g, d)
    requires lh != [] && Loggable(g, lh) && CacheHolds(g, m, v, lh)
    ensures
      var logged := Logged(g, d, lh, m);
      && InRange(d, logged)
      && var d1 := Apply(d, logged);
      && Recovers(g, d1, m)
      && Listed(d1[g.start]) == lh
      && w + logged + RecoveryWrites(g, d1) == w + CommitWrites(g, d, lh, m)
  {
    CommitShape(g, d, lh, m, v);
  }

  /** What write_log did, block by block. */
  lemma LogWritten(g: Geometry, d: Disk, m: Disk, lh: seq<int>, d': Disk, m': Disk)
    requires g.Valid() && |d| == |m| == g.nblocks && Loggable(g, lh)
    requires Performed(d, m, LogWrites(g, lh, m), d', m')
    ensures |d'| == g.nblocks && |lh| < g.size && forall i | 0 <= i < |lh| :: g.Home(lh[i])
    ensures forall b | 0 <= b < g.nblocks ::
      d'[b] == if g.start < b <= g.start + |lh| then m[lh[b - g.start - 1]] else d[b]
  {
    var ws := LogWrites(g, lh, m);
    assert ws[..|lh|] == ws;
    LoggingPrefix(g, d, lh, m, |lh|);
    forall b | g.start < b <= g.start + |lh| ensures d'[b] == m[lh[b - g.start - 1]] {
      assert d'[g.start + 1 + (b - g.start - 1)] == m[lh[b - g.start - 1]];
    }
  }

  /** What install_trans did, block by block. */
  lemma HomeWritten(g: Geometry, d: Disk, m: Disk, lh: seq<int>, d': Disk, m': Disk)
    requires g.Valid() && |d| == |m| == g.nblocks && Loggable(g, lh)
    requires Performed(d, m, InstallWrites(g, lh, d), d', m')
    ensures |d'| == g.nblocks && |lh| < g.size && forall i | 0 <= i < |lh| :: g.Home(lh[i])
    ensures forall b | 0 <= b < g.nblocks && b !in lh :: d'[b] == d[b]
    ensures forall i | 0 <= i < |lh| :: d'[lh[i]] == d[g.start + 1 + i]
  {
    var ws := InstallWrites(g, lh, d);
    InstallInRange(g, d, lh);
    assert ws[..|lh|] == ws;
    InstallPrefix(g, d, lh, ws, |lh|);
  }

  /** Between write_log and write_head. */
  lemma AfterLogging(g: Geometry, d: Disk, m: Disk, lh: seq<int>, d': Disk, m': Disk)
    requires g.Valid() && |d| == |m| == g.nblocks && Loggable(g, lh) && |d[g.start]| == WORDS
    requires Performed(d, m, LogWrites(g, lh, m), d', m')
    ensures
      var h := Header(d[g.start], lh);
      var logged := Logged(g, d, lh, m);
      && |d'| == |m'| == g.nblocks
      && d'[g.start] == d[g.start]
      && InRange(d, logged)
      && d'[g.start := h] == Apply(d, logged)
      && CacheHolds(g, m'[g.start := h], m, lh)
  {
    hide Header, Apply;
    LogWritten(g, d, m, lh, d', m');
    LoggedCache(g, d, m, lh, d', m');
    var ws := LogWrites(g, lh, m);
    var logged := ws + [Write(g.start, Header(d[g.start], lh))];
    assert logged[..|lh|] == ws && logged[..|lh| + 1] == logged;
    ApplyOne(d, logged, |lh|);
  }

  lemma LoggedCache(g: Geometry, d: Disk, m: Disk, lh: seq<int>, d': Disk, m': Disk)
    requires g.Valid() && |d| == |m| == g.nblocks && Loggable(g, lh)
    requires Performed(d, m, LogWrites(g, lh, m), d', m')
    ensures |m'| == g.nblocks && forall b | g.Home(b) :: m'[b] == m[b]
  {
    hide Apply;
    var ws := LogWrites(g, lh, m);
    assert ws[..|lh|] == ws;
    LoggingPrefix(g, m, lh, m, |lh|);
  }

  /** Between install_trans and the write_head that erases the transaction. */
  lemma AfterInstall(g: Geometry, d1: Disk, m1: Disk, lh: seq<int>, m: Disk, d': Disk, m': Disk)
    requires Recovers(g, d1, m) && Listed(d1[g.start]) == lh
    requires |m1| == g.nblocks && Agree(g, d1, m1) && CacheHolds(g, m1, m, lh)
    requires Performed(d1, m1, InstallWrites(g, lh, d1), d', m')
    ensures |d'| == |m'| == g.nblocks && d'[g.start] == d1[g.start]
    ensures
      var h := Header(d1[g.start], []);
      && Recovers(g, d'[g.start := h], m)
      && Clean(g, d'[g.start := h])
      && SameHome(g, d'[g.start := h], m)
      && SameHome(g, m'[g.start := h], m)
      && RecoveryWrites(g, d1) == InstallWrites(g, lh, d1) + [Write(g.start, h)]
  {
    RecoveryTail(g, d1, m);
    CachedInstall(g, d1, m1, lh, m);
  }

  lemma CachedInstall(g: Geometry, d1: Disk, m1: Disk, lh: seq<int>, m: Disk)
    requires Recovers(g, d1, m) && Listed(d1[g.start]) == lh
    requires |m1| == g.nblocks && Agree(g, d1, m1) && CacheHolds(g, m1, m, lh)
    ensures
      var ws := InstallWrites(g, lh, d1);
      InRange(m1, ws) && SameHome(g, Apply(m1, ws), m)
  {
    var ws := InstallWrites(g, lh, d1);
    InstallInRange(g, d1, lh);
    assert ws[..|lh|] == ws;
    InstallPrefix(g, m1, lh, ws, |lh|);
    var e := Apply(m1, ws);
    forall b | g.Home(b) ensures e[b] == m[b] {
      if b in lh {
        var i :| 0 <= i < |lh| && lh[i] == b;
      }
    }
  }

  lemma LoggingStart(g: Geometry, d: Disk, m: Disk, lh: seq<int>)
    requires g.Valid() && |d| == |m| == g.nblocks && Loggable(g, lh)
    ensures |LogWrites(g, lh, m)| == |lh| && Performed(d, m, LogWrites(g, lh, m)[..0], d, m)
  {
  }

  /** The buffer write_log copies from still holds what the transaction left in it. */
  lemma LoggingStep(g: Geometry, m: Disk, lh: seq<int>, k: nat, d: Disk, d': Disk, m': Disk)
    requires g.Valid() && |m| == g.nblocks && Loggable(g, lh) && k < |lh|
    requires |LogWrites(g, lh, m)| == |lh|
    requires Performed(d, m, LogWrites(g, lh, m)[..k], d', m')
    ensures
      var ws := LogWrites(g, lh, m);
      && InRange(d, ws)
      && |m'| == g.nblocks
      && 0 <= lh[k] < g.nblocks
      && k < g.size - 1
      && ws[k] == Write(g.start + 1 + k, m'[lh[k]])
  {
    LoggingPrefix(g, m, lh, m, k);
    assert g.Home(lh[k]);
  }

  lemma InstallInRange(g: Geometry, d: Disk, lh: seq<int>)
    requires g.Valid() && |d| == g.nblocks && Loggable(g, lh)
    ensures InRange(d, InstallWrites(g, lh, d)) && |InstallWrites(g, lh, d)| == |lh|
  {
    forall i | 0 <= i < |lh| ensures InstallWrites(g, lh, d)[i].block < |d| {
      assert g.Home(lh[i]);
    }
  }

  /** The log block install_trans copies from is untouched by the earlier installs. */
  lemma InstallStep(g: Geometry, d: Disk, lh: seq<int>, k: nat, m: Disk, d': Disk, m': Disk)
    requires g.Valid() && |d| == g.nblocks && Loggable(g, lh) && k < |lh|
    requires |InstallWrites(g, lh, d)| == |lh|
    requires Performed(d, m, InstallWrites(g, lh, d)[..k], d', m')
    requires |d'| == |m'| == g.nblocks && Agree(g, d', m')
    ensures
      var ws := InstallWrites(g, lh, d);
      && InRange(d, ws)
      && g.Home(lh[k])
      && k < g.size - 1
      && ws[k] == Write(lh[k], m'[g.start + 1 + k])
  {
    InstallInRange(g, d, lh);
    InstallPrefix(g, d, lh, InstallWrites(g, lh, d), k);
    assert g.Home(lh[k]);
    assert m'[g.start + 1 + k] == d'[g.start + 1 + k];
  }

  /** Clearing the header completes a recovery. */
  lemma RecoveryTail(g: Geometry, d: Disk, v: Disk)
    requires Recovers(g, d, v)
    ensures
      var lh := Listed(d[g.start]);
      var ins := InstallWrites(g, lh, d);
      && InRange(d, ins)
      && RecoveryWrites(g, d) == ins + [Write(g.start, Header(d[g.start], []))]
      && var e := Apply(d, ins);
      && e[g.start] == d[g.start]
      && var e' := e[g.start := Header(d[g.start], [])];
      && Recovers(g, e', v) && Clean(g, e') && SameHome(g, e', v)
  {
    var lh := Listed(d[g.start]);
    var ins := InstallWrites(g, lh, d);
    InstallInRange(g, d, lh);
    assert ins[..|lh|] == ins;
    InstallPrefix(g, d, lh, ins, |lh|);
    var e := Apply(d, ins);
    InstalledAll(g, d, v, e);
    ClearedRecovers(g, e, v);
  }
}
