/** The redo log of src/log.c: its on-disk format, and what a commit or a recovery that stops after
    any of its block writes leaves behind.

    A block is its BSIZE/4 words. The disk does one whole block write at a time, so a machine
    that stops leaves the disk after some prefix of a list of writes.
 */
module RedoLog {

  const WORDS := 128        // BSIZE / sizeof(uint)
  const MAXOPBLOCKS := 10
  const LOGSIZE := 30       // MAXOPBLOCKS * 3

  type Block = seq<int>
  type Disk = seq<Block>

  datatype Write = Write(block: nat, data: Block)

  /** Where the log lies: a header block at `start`, then `size - 1` data blocks. */
  datatype Geometry = Geometry(start: nat, size: nat, nblocks: nat) {
    predicate Valid() { 1 <= size && start + size <= nblocks }

    /** Blocks outside the log: the file system proper. */
    predicate Home(b: int) { 0 <= b < nblocks && !(start <= b < start + size) }
  }

  ghost predicate Distinct(s: seq<int>) {
    forall i, j | 0 <= i < j < |s| :: s[i] != s[j]
  }

  /** A list of block numbers that the log can hold. */
  ghost predicate Loggable(g: Geometry, lh: seq<int>) {
    && |lh| <= LOGSIZE
    && |lh| <= g.size - 1
    && Distinct(lh)
    && forall i | 0 <= i < |lh| :: g.Home(lh[i])
  }

  predicate HeaderOk(h: Block) { |h| == WORDS && 0 <= h[0] <= LOGSIZE }

  /** The block numbers a header block lists. */
  function Listed(h: Block): seq<int>
    requires HeaderOk(h)
  {
    h[1..1 + h[0]]
  }

  /** write_head changes the count and the first n numbers; the remaining words stay. */
  function Header(h: Block, lh: seq<int>): (r: Block)
    requires |lh| <= LOGSIZE && |h| == WORDS
    ensures HeaderOk(r) && Listed(r) == lh
    ensures r[0] == |lh| && forall i | 1 <= i < WORDS :: r[i] == if i <= |lh| then lh[i - 1] else h[i]
  {
    [|lh|] + lh + h[1 + |lh|..]
  }

  /** What the disk `d` stands for: a complete recovery from `d` would leave exactly the
      contents `v` in every block outside the log. */
  ghost predicate Recovers(g: Geometry, d: Disk, v: Disk) {
    && g.Valid()
    && |d| == |v| == g.nblocks
    && HeaderOk(d[g.start])
    && var lh := Listed(d[g.start]);
    && Loggable(g, lh)
    && (forall i | 0 <= i < |lh| :: v[lh[i]] == d[g.start + 1 + i])
    && (forall b | g.Home(b) && b !in lh :: v[b] == d[b])
  }

  ghost predicate Clean(g: Geometry, d: Disk)
    requires g.Valid() && |d| == g.nblocks && HeaderOk(d[g.start])
  {
    Listed(d[g.start]) == []
  }

  ghost predicate SameHome(g: Geometry, d: Disk, v: Disk) {
    && |d| == |v| == g.nblocks
    && forall b | g.Home(b) :: d[b] == v[b]
  }

  ghost predicate InRange(d: Disk, ws: seq<Write>) {
    forall i | 0 <= i < |ws| :: ws[i].block < |d|
  }

  /** The disk after the writes `ws`, in order. */
  ghost function Apply(d: Disk, ws: seq<Write>): (r: Disk)
    requires InRange(d, ws)
    ensures |r| == |d|
  {
    if ws == [] then d
    else
      var w := ws[|ws| - 1];
      Apply(d, ws[..|ws| - 1])[w.block := w.data]
  }

  /** write_log: the cached contents of each logged block go to the log. */
  ghost function LogWrites(g: Geometry, lh: seq<int>, mem: Disk): (ws: seq<Write>)
    requires g.Valid() && |mem| == g.nblocks && Loggable(g, lh)
  {
    seq(|lh|, i requires 0 <= i < |lh| => Write(g.start + 1 + i, mem[lh[i]]))
  }

  /** install_trans: each log block goes to its home. */
  ghost function InstallWrites(g: Geometry, lh: seq<int>, d: Disk): (ws: seq<Write>)
    requires g.Valid() && |d| == g.nblocks && Loggable(g, lh)
  {
    seq(|lh|, i requires 0 <= i < |lh| => Write(lh[i], d[g.start + 1 + i]))
  }

  /** recover_from_log on the disk `d`: install every listed block, then clear the header. */
  ghost function RecoveryWrites(g: Geometry, d: Disk): (ws: seq<Write>)
    requires g.Valid() && |d| == g.nblocks && HeaderOk(d[g.start])
    requires Loggable(g, Listed(d[g.start]))
  {
    InstallWrites(g, Listed(d[g.start]), d) + [Write(g.start, Header(d[g.start], []))]
  }

  /** commit(): log, write the header, and then exactly what a recovery would do. */
  ghost function CommitWrites(g: Geometry, d: Disk, lh: seq<int>, mem: Disk): (ws: seq<Write>)
    requires g.Valid() && |d| == |mem| == g.nblocks && Loggable(g, lh) && HeaderOk(d[g.start])
  {
    if lh == [] then []
    else
      var logged := LogWrites(g, lh, mem) + [Write(g.start, Header(d[g.start], lh))];
      assert InRange(d, logged);
      var d1 := Apply(d, logged);
      assert d1 == Apply(d, logged[..|lh|])[g.start := Header(d[g.start], lh)];
      logged + RecoveryWrites(g, d1)
  }

  lemma {:induction false} ApplyConcat(d: Disk, a: seq<Write>, b: seq<Write>)
    requires InRange(d, a) && InRange(d, b)
    ensures InRange(d, a + b) && Apply(d, a + b) == Apply(Apply(d, a), b)
  {
    if b == [] {
      assert a + b == a;
    } else {
      ApplyConcat(d, a, b[..|b| - 1]);
      assert (a + b)[..|a + b| - 1] == a + b[..|b| - 1];
    }
  }

  lemma ApplyOne(d: Disk, ws: seq<Write>, k: nat)
    requires InRange(d, ws) && k < |ws|
    ensures Apply(d, ws[..k + 1]) == Apply(d, ws[..k])[ws[k].block := ws[k].data]
  {
    assert ws[..k + 1][..k] == ws[..k];
  }

  lemma ApplyPrefix(d: Disk, a: seq<Write>, b: seq<Write>, k: nat)
    requires InRange(d, a) && InRange(d, b) && k <= |a + b|
    ensures InRange(d, a + b)
    ensures Apply(d, (a + b)[..k]) ==
            if k < |a| then Apply(d, a[..k]) else Apply(Apply(d, a), b[..k - |a|])
  {
    if k < |a| {
      assert (a + b)[..k] == a[..k];
    } else {
      assert (a + b)[..k] == a + b[..k - |a|];
      ApplyConcat(d, a, b[..k - |a|]);
    }
  }

  /** The disk after k of the writes of a recovery, block by block. */
  ghost predicate Installed(g: Geometry, d: Disk, lh: seq<int>, k: nat, e: Disk)
    requires g.Valid() && |d| == g.nblocks && Loggable(g, lh) && k <= |lh|
  {
    && |e| == |d|
    && (forall b | g.start <= b < g.start + g.size :: e[b] == d[b])
    && (forall b | g.Home(b) && b !in lh :: e[b] == d[b])
    && (forall i | 0 <= i < k :: e[lh[i]] == d[g.start + 1 + i])
  }

  lemma InstallOne(g: Geometry, d: Disk, lh: seq<int>, k: nat, e: Disk)
    requires g.Valid() && |d| == g.nblocks && Loggable(g, lh) && k < |lh|
    requires Installed(g, d, lh, k, e)
    ensures Installed(g, d, lh, k + 1, e[lh[k] := d[g.start + 1 + k]])
  {
    assert g.Home(lh[k]);
  }

  lemma {:induction false} InstallPrefix(g: Geometry, d: Disk, lh: seq<int>, ws: seq<Write>, k: nat)
    requires g.Valid() && |d| == g.nblocks && Loggable(g, lh) && k <= |lh| <= |ws|
    requires InRange(d, ws)
    requires forall i | 0 <= i < |lh| :: ws[i] == Write(lh[i], d[g.start + 1 + i])
    ensures Installed(g, d, lh, k, Apply(d, ws[..k]))
  {
    if k > 0 {
      InstallPrefix(g, d, lh, ws, k - 1);
      ApplyOne(d, ws, k - 1);
      InstallOne(g, d, lh, k - 1, Apply(d, ws[..k - 1]));
    }
  }

  lemma RecoveryInRange(g: Geometry, d: Disk)
    requires g.Valid() && |d| == g.nblocks && HeaderOk(d[g.start])
    requires Loggable(g, Listed(d[g.start]))
    ensures InRange(d, RecoveryWrites(g, d))
  {
    var lh := Listed(d[g.start]);
    forall i | 0 <= i < |lh| ensures RecoveryWrites(g, d)[i].block < |d| {
      assert g.Home(lh[i]);
    }
  }

  /** A disk with some blocks installed still stands for the same contents, and a restarted
      recovery has the same writes to do. */
  lemma InstalledRecovers(g: Geometry, d: Disk, v: Disk, k: nat, e: Disk)
    requires Recovers(g, d, v) && k <= |Listed(d[g.start])|
    requires Installed(g, d, Listed(d[g.start]), k, e)
    ensures Recovers(g, e, v) && RecoveryWrites(g, e) == RecoveryWrites(g, d)
  {
    assert e[g.start] == d[g.start];
  }

  lemma InstalledAll(g: Geometry, d: Disk, v: Disk, e: Disk)
    requires Recovers(g, d, v)
    requires Installed(g, d, Listed(d[g.start]), |Listed(d[g.start])|, e)
    ensures SameHome(g, e, v)
  {
    var lh := Listed(d[g.start]);
    forall b | g.Home(b) ensures e[b] == v[b] {
      if b in lh {
        var i :| 0 <= i < |lh| && lh[i] == b;
      }
    }
  }

  lemma ClearedRecovers(g: Geometry, e: Disk, v: Disk)
    requires g.Valid() && SameHome(g, e, v) && |e[g.start]| == WORDS
    ensures
      var e' := e[g.start := Header(e[g.start], [])];
      Recovers(g, e', v) && Clean(g, e') && SameHome(g, e', v)
  {
  }

  /** Stopping a recovery after any number of its writes changes nothing that the next
      recovery would leave; only a complete one clears the header. */
  lemma RecoveryCrash(g: Geometry, d: Disk, v: Disk, k: nat)
    requires Recovers(g, d, v)
    requires k <= |RecoveryWrites(g, d)|
    ensures
      var ws := RecoveryWrites(g, d);
      && InRange(d, ws)
      && var e := Apply(d, ws[..k]);
      && Recovers(g, e, v)
      && (k < |ws| ==> RecoveryWrites(g, e) == ws)
      && (k == |ws| ==> Clean(g, e) && SameHome(g, e, v))
  {
    var ws := RecoveryWrites(g, d);
    var lh := Listed(d[g.start]);
    RecoveryInRange(g, d);
    var j := if k <= |lh| then k else |lh|;
    InstallPrefix(g, d, lh, ws, j);
    hide Installed, Apply;
    var e := Apply(d, ws[..j]);
    InstalledRecovers(g, d, v, j, e);
    if k > |lh| {
      InstalledAll(g, d, v, e);
      ApplyOne(d, ws, |lh|);
      ClearedRecovers(g, e, v);
    }
  }

  /** The disk while commit is still filling the log. */
  ghost predicate Filled(g: Geometry, d: Disk, lh: seq<int>, mem: Disk, k: nat, e: Disk)
    requires g.Valid() && |d| == |mem| == g.nblocks && Loggable(g, lh) && k <= |lh|
  {
    && |e| == |d|
    && (forall b | 0 <= b < |d| && !(g.start < b <= g.start + k) :: e[b] == d[b])
    && (forall i | 0 <= i < k :: e[g.start + 1 + i] == mem[lh[i]])
  }

  lemma {:induction false} LoggingPrefix(g: Geometry, d: Disk, lh: seq<int>, mem: Disk, k: nat)
    requires g.Valid() && |d| == |mem| == g.nblocks && Loggable(g, lh)
    requires k <= |lh|
    ensures
      var ws := LogWrites(g, lh, mem);
      InRange(d, ws) && Filled(g, d, lh, mem, k, Apply(d, ws[..k]))
  {
    if k > 0 {
      LoggingPrefix(g, d, lh, mem, k - 1);
      ApplyOne(d, LogWrites(g, lh, mem), k - 1);
    }
  }

  /** Stopping while the log is still being filled leaves the header clear. */
  lemma FilledRecovers(g: Geometry, d: Disk, lh: seq<int>, mem: Disk, v: Disk, k: nat, e: Disk)
    requires Recovers(g, d, v) && Clean(g, d)
    requires |mem| == g.nblocks && Loggable(g, lh) && k <= |lh|
    requires Filled(g, d, lh, mem, k, e)
    ensures Recovers(g, e, v) && Clean(g, e) && e[g.start] == d[g.start]
  {
  }

  /** Writing the header over a full log switches what the disk stands for. */
  lemma HeaderCommits(g: Geometry, d: Disk, lh: seq<int>, mem: Disk, v: Disk, e: Disk)
    requires Recovers(g, d, v) && Clean(g, d)
    requires |mem| == g.nblocks && Loggable(g, lh)
    requires forall b | g.Home(b) && b !in lh :: mem[b] == v[b]
    requires Filled(g, d, lh, mem, |lh|, e)
    ensures
      var e' := e[g.start := Header(d[g.start], lh)];
      Recovers(g, e', mem) && Listed(e'[g.start]) == lh
  {
    var h := Header(d[g.start], lh);
    var e' := e[g.start := h];
    assert Listed(e'[g.start]) == lh;
    assert Listed(d[g.start]) == [];
  }

  lemma CommitHeader(g: Geometry, d: Disk, lh: seq<int>, mem: Disk, v: Disk)
    requires Recovers(g, d, v) && Clean(g, d)
    requires |mem| == g.nblocks && Loggable(g, lh)
    requires forall b | g.Home(b) && b !in lh :: mem[b] == v[b]
    ensures
      var ws := LogWrites(g, lh, mem) + [Write(g.start, Header(d[g.start], lh))];
      InRange(d, ws) && Recovers(g, Apply(d, ws), mem) && Listed(Apply(d, ws)[g.start]) == lh
  {
    var logs := LogWrites(g, lh, mem);
    var ws := logs + [Write(g.start, Header(d[g.start], lh))];
    LoggingPrefix(g, d, lh, mem, |lh|);
    assert logs[..|lh|] == logs && ws[..|lh|] == logs && ws[..|lh| + 1] == ws;
    ApplyOne(d, ws, |lh|);
    HeaderCommits(g, d, lh, mem, v, Apply(d, logs));
  }

  /** commit() as the log's part followed by the recovery's part. */
  lemma CommitShape(g: Geometry, d: Disk, lh: seq<int>, mem: Disk, v: Disk)
    requires Recovers(g, d, v) && Clean(g, d)
    requires |mem| == g.nblocks && Loggable(g, lh) && lh != []
    requires forall b | g.Home(b) && b !in lh :: mem[b] == v[b]
    ensures
      var logged := LogWrites(g, lh, mem) + [Write(g.start, Header(d[g.start], lh))];
      && InRange(d, logged)
      && var d1 := Apply(d, logged);
      && Recovers(g, d1, mem)
      && InRange(d1, RecoveryWrites(g, d1))
      && Listed(d1[g.start]) == lh
      && CommitWrites(g, d, lh, mem) == logged + RecoveryWrites(g, d1)
  {
    CommitHeader(g, d, lh, mem, v);
    var logged := LogWrites(g, lh, mem) + [Write(g.start, Header(d[g.start], lh))];
    RecoveryInRange(g, Apply(d, logged));
  }

  /** The first |lh| writes of commit are those of write_log. */
  lemma CommitLogging(g: Geometry, d: Disk, lh: seq<int>, mem: Disk, v: Disk, k: nat)
    requires Recovers(g, d, v) && Clean(g, d)
    requires |mem| == g.nblocks && Loggable(g, lh)
    requires forall b | g.Home(b) && b !in lh :: mem[b] == v[b]
    requires lh != [] && k <= |lh|
    ensures
      var ws := CommitWrites(g, d, lh, mem);
      && |ws| == 2 * |lh| + 2
      && InRange(d, ws)
      && ws[..k] == LogWrites(g, lh, mem)[..k]
  {
    CommitShape(g, d, lh, mem, v);
    var logged := LogWrites(g, lh, mem) + [Write(g.start, Header(d[g.start], lh))];
    assert logged[..k] == LogWrites(g, lh, mem)[..k];
  }

  lemma CommitCrashBefore(g: Geometry, d: Disk, lh: seq<int>, mem: Disk, v: Disk, k: nat)
    requires Recovers(g, d, v) && Clean(g, d)
    requires |mem| == g.nblocks && Loggable(g, lh)
    requires forall b | g.Home(b) && b !in lh :: mem[b] == v[b]
    requires lh != [] && k <= |lh|
    ensures
      var ws := CommitWrites(g, d, lh, mem);
      && |ws| == 2 * |lh| + 2
      && InRange(d, ws)
      && Recovers(g, Apply(d, ws[..k]), v)
      && Clean(g, Apply(d, ws[..k]))
  {
    CommitLogging(g, d, lh, mem, v, k);
    LoggingPrefix(g, d, lh, mem, k);
    FilledRecovers(g, d, lh, mem, v, k, Apply(d, LogWrites(g, lh, mem)[..k]));
  }

  lemma CommitCrashAfter(g: Geometry, d: Disk, lh: seq<int>, mem: Disk, v: Disk, k: nat)
    requires Recovers(g, d, v) && Clean(g, d)
    requires |mem| == g.nblocks && Loggable(g, lh)
    requires forall b | g.Home(b) && b !in lh :: mem[b] == v[b]
    requires lh != [] && |lh| < k <= 2 * |lh| + 2
    ensures
      var ws := CommitWrites(g, d, lh, mem);
      && |ws| == 2 * |lh| + 2
      && InRange(d, ws)
      && var e := Apply(d, ws[..k]);
      && Recovers(g, e, mem)
      && (k == |ws| ==> Clean(g, e) && SameHome(g, e, mem))
  {
    hide Clean, SameHome, Apply, CommitWrites, Loggable, Header, RecoveryWrites;
    CommitLogging(g, d, lh, mem, v, 0);
    CommitShape(g, d, lh, mem, v);
    var logged := LogWrites(g, lh, mem) + [Write(g.start, Header(d[g.start], lh))];
    var d1 := Apply(d, logged);
    ApplyPrefix(d, logged, RecoveryWrites(g, d1), k);
    RecoveryCrash(g, d1, mem, k - |lh| - 1);
  }

  /** Crash atomicity of one commit. The header write is the (|lh| + 1)-th write: a stop before
      it leaves a disk that recovers to the old contents, a stop after it one that recovers to
      the new contents, and nothing in between can happen. */
  lemma CommitCrash(g: Geometry, d: Disk, lh: seq<int>, mem: Disk, v: Disk, k: nat)
    requires Recovers(g, d, v) && Clean(g, d)
    requires |mem| == g.nblocks && Loggable(g, lh)
    requires forall b | g.Home(b) && b !in lh :: mem[b] == v[b]
    requires k <= |CommitWrites(g, d, lh, mem)|
    ensures
      var ws := CommitWrites(g, d, lh, mem);
      && InRange(d, ws)
      && var e := Apply(d, ws[..k]);
      && (k <= |lh| ==> Recovers(g, e, v) && Clean(g, e))
      && (k > |lh| ==> Recovers(g, e, mem))
      && (k == |ws| ==> Recovers(g, e, mem) && Clean(g, e) && SameHome(g, e, mem))
  {
    if lh == [] {
      assert CommitWrites(g, d, lh, mem)[..k] == [];
    } else {
      CommitCrashBefore(g, d, lh, mem, v, 0);
      hide *;
      if k <= |lh| {
        CommitCrashBefore(g, d, lh, mem, v, k);
      } else {
        CommitCrashAfter(g, d, lh, mem, v, k);
      }
    }
  }

  /** Any number of recoveries, the i-th one stopped after stops[i] writes. */
  ghost function Interrupted(g: Geometry, d: Disk, v: Disk, stops: seq<nat>): (e: Disk)
    requires Recovers(g, d, v)
    ensures Recovers(g, e, v)
  {
    if stops == [] then d
    else
      var f := Interrupted(g, d, v, stops[..|stops| - 1]);
      var ws := RecoveryWrites(g, f);
      var k := if stops[|stops| - 1] <= |ws| then stops[|stops| - 1] else |ws|;
      RecoveryCrash(g, f, v, k);
      Apply(f, ws[..k])
  }

  /** A recovery that nothing stops, after any number that were stopped. */
  ghost function Recovered(g: Geometry, d: Disk, v: Disk, stops: seq<nat>): (r: Disk)
    requires Recovers(g, d, v)
    ensures SameHome(g, r, v)
  {
    var e := Interrupted(g, d, v, stops);
    var ws := RecoveryWrites(g, e);
    RecoveryCrash(g, e, v, |ws|);
    assert ws[..|ws|] == ws;
    Apply(e, ws)
  }

  /** Crash atomicity end to end: stop commit after any k writes, stop the following recoveries
      anywhere any number of times, then let one finish. Every home block is as before the
      transaction (k <= |lh|), or every one is as the transaction left it (k > |lh|). */
  lemma CrashAtomicity(g: Geometry, d: Disk, lh: seq<int>, mem: Disk, v: Disk, k: nat, stops: seq<nat>)
    requires Recovers(g, d, v) && Clean(g, d)
    requires |mem| == g.nblocks && Loggable(g, lh)
    requires forall b | g.Home(b) && b !in lh :: mem[b] == v[b]
    requires k <= |CommitWrites(g, d, lh, mem)|
    ensures
      var ws := CommitWrites(g, d, lh, mem);
      var outcome := if k <= |lh| then v else mem;
      && InRange(d, ws)
      && Recovers(g, Apply(d, ws[..k]), outcome)
      && SameHome(g, Recovered(g, Apply(d, ws[..k]), outcome, stops), outcome)
  {
    CommitCrash(g, d, lh, mem, v, k);
    hide *;
  }
}
