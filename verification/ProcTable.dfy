/** The process table of src/proc.c. Each method is a section that runs under ptable.lock, or that
    touches only an entry its caller is creating. NPROC is 64. */
module ProcTable {

  datatype Option<T> = None | Some(value: T)

  datatype PState = UNUSED | EMBRYO | SLEEPING | RUNNABLE | RUNNING | ZOMBIE

  // A process sleeps on its own entry in wait; all other channels are Other.
  datatype Chan = Entry(i: nat) | Other(n: nat)

  datatype Proc = Proc(state: PState, pid: nat, parent: Option<nat>, chan: Option<Chan>, killed: bool)

  /** The table, the entry of init, the next pid, the pids of children reaped so far, and for each
      process the entry it is creating in fork. */
  datatype Table = Table(ps: seq<Proc>, init: nat, nextpid: nat, reaped: set<nat>, forking: seq<Option<nat>>)

  predicate Alive(p: Proc) { p.state.SLEEPING? || p.state.RUNNABLE? || p.state.RUNNING? }

  predicate InWait(p: Proc, i: nat) { p.state.SLEEPING? && p.chan == Some(Entry(i)) }

  ghost predicate Shape(t: Table) {
    |t.ps| == |t.forking| == 64 && t.init < 64 && Alive(t.ps[t.init])
  }

  /** The parent of a process past EMBRYO, other than init, is alive. */
  ghost predicate ParentOk(t: Table, i: nat)
    requires Shape(t) && i < 64
  {
    var p := t.ps[i];
    match p.state
    case UNUSED => p.parent == None
    case EMBRYO => p.parent.Some? ==> p.parent.value < 64 && t.forking[p.parent.value] == Some(i)
    case _ => if i == t.init then p.parent == None
              else p.parent.Some? && p.parent.value < 64 && p.parent.value != i && Alive(t.ps[p.parent.value])
  }

  ghost predicate Parents(t: Table)
    requires Shape(t)
  {
    forall i | 0 <= i < 64 :: ParentOk(t, i)
  }

  /** No process sleeps in wait while it has a ZOMBIE child. */
  ghost predicate NoMissedExit(t: Table)
    requires Shape(t)
  {
    forall c | 0 <= c < 64 && t.ps[c].state.ZOMBIE? && t.ps[c].parent.Some? && t.ps[c].parent.value < 64 ::
      !InWait(t.ps[t.ps[c].parent.value], t.ps[c].parent.value)
  }

  /** Pids in use are different from each other and from those reaped. */
  ghost predicate Pids(t: Table)
    requires Shape(t)
  {
    && (forall i | 0 <= i < 64 && !t.ps[i].state.UNUSED? :: t.ps[i].pid < t.nextpid && t.ps[i].pid !in t.reaped)
    && (forall i, j | 0 <= i < j < 64 && !t.ps[i].state.UNUSED? && !t.ps[j].state.UNUSED? :: t.ps[i].pid != t.ps[j].pid)
    && (forall pid | pid in t.reaped :: pid < t.nextpid)
  }

  /** A process creates one entry at a time, and nobody else works on that entry. */
  ghost predicate Forks(t: Table)
    requires Shape(t)
  {
    && (forall c | 0 <= c < 64 && t.forking[c].Some? :: ForkOk(t, c))
    && (forall c, d | 0 <= c < d < 64 && t.forking[c].Some? :: t.forking[c] != t.forking[d])
  }

  ghost predicate ForkOk(t: Table, c: nat)
    requires Shape(t) && c < 64 && t.forking[c].Some?
  {
    var e := t.forking[c].value;
    e < 64 && t.ps[e].state.EMBRYO? && Alive(t.ps[c]) && (t.ps[e].parent.Some? ==> t.ps[e].parent.value == c)
  }

  ghost predicate Inv(t: Table) {
    Shape(t) && Parents(t) && NoMissedExit(t) && Pids(t) && Forks(t)
  }

  // ----- sections on values -----

  function Woken(p: Proc, ch: Chan): Proc {
    if p.state.SLEEPING? && p.chan == Some(ch) then p.(state := RUNNABLE) else p
  }

  function Wake(ps: seq<Proc>, ch: Chan): (r: seq<Proc>)
    ensures |r| == |ps| && forall i | 0 <= i < |ps| :: r[i] == Woken(ps[i], ch)
  {
    seq(|ps|, i requires 0 <= i < |ps| => Woken(ps[i], ch))
  }

  /** Some processes that slept no longer do; nothing else is changed. */
  ghost predicate Roused(ps: seq<Proc>, qs: seq<Proc>) {
    |qs| == |ps| && forall i | 0 <= i < |ps| ::
      qs[i] == ps[i] || (ps[i].state.SLEEPING? && qs[i] == ps[i].(state := RUNNABLE))
  }

  lemma RousedKeeps(t: Table, qs: seq<Proc>)
    requires Inv(t) && Roused(t.ps, qs)
    ensures Inv(t.(ps := qs))
  {
    var u := t.(ps := qs);
    assert forall i | 0 <= i < 64 :: Alive(t.ps[i]) ==> Alive(u.ps[i]);
    forall i | 0 <= i < 64 ensures ParentOk(u, i) {
      assert ParentOk(t, i);
    }
    forall c | 0 <= c < 64 && u.forking[c].Some? ensures ForkOk(u, c) {
      assert ForkOk(t, c);
    }
  }

  lemma AllocRest(t: Table, c: nat, e: nat)
    requires Inv(t) && c < 64 && e < 64 && t.ps[e].state.UNUSED?
    ensures var u := t.(ps := t.ps[e := t.ps[e].(state := EMBRYO, pid := t.nextpid)], nextpid := t.nextpid + 1,
                        forking := t.forking[c := Some(e)]);
      Shape(u) && Pids(u) && NoMissedExit(u)
  {
    hide Forks;
    assert ParentOk(t, e);
  }

  lemma AllocKeeps(t: Table, c: nat, e: nat)
    requires Inv(t) && c < 64 && e < 64 && Alive(t.ps[c]) && t.forking[c] == None && t.ps[e].state.UNUSED?
    ensures Inv(t.(ps := t.ps[e := t.ps[e].(state := EMBRYO, pid := t.nextpid)], nextpid := t.nextpid + 1,
                   forking := t.forking[c := Some(e)]))
  {
    hide Pids, NoMissedExit;
    var u := t.(ps := t.ps[e := t.ps[e].(state := EMBRYO, pid := t.nextpid)], nextpid := t.nextpid + 1,
                forking := t.forking[c := Some(e)]);
    AllocRest(t, c, e);
    assert ParentOk(t, e);
    forall i | 0 <= i < 64 ensures ParentOk(u, i) {
      assert ParentOk(t, i);
    }
    forall d | 0 <= d < 64 && u.forking[d].Some? ensures ForkOk(u, d) {
      assert t.forking[d].Some? ==> ForkOk(t, d);
    }
    forall a, b | 0 <= a < b < 64 && u.forking[a].Some? ensures u.forking[a] != u.forking[b] {
      assert t.forking[a].Some? ==> ForkOk(t, a);
      assert t.forking[b].Some? ==> ForkOk(t, b);
    }
  }

  /** Creation fails: the entry is unused again. */
  lemma AbandonKeeps(t: Table, c: nat, e: nat)
    requires Inv(t) && c < 64 && t.forking[c] == Some(e) && e < 64 && t.ps[e].parent == None
    ensures Inv(t.(ps := t.ps[e := t.ps[e].(state := UNUSED)], forking := t.forking[c := None]))
  {
    var u := t.(ps := t.ps[e := t.ps[e].(state := UNUSED)], forking := t.forking[c := None]);
    assert ForkOk(t, c);
    forall i | 0 <= i < 64 ensures ParentOk(u, i) {
      assert ParentOk(t, i);
    }
    forall d | 0 <= d < 64 && u.forking[d].Some? ensures ForkOk(u, d) {
      assert ForkOk(t, d);
    }
  }

  lemma AttachKeeps(t: Table, c: nat, e: nat)
    requires Inv(t) && c < 64 && t.forking[c] == Some(e) && e < 64
    ensures Inv(t.(ps := t.ps[e := t.ps[e].(parent := Some(c))]))
  {
    var u := t.(ps := t.ps[e := t.ps[e].(parent := Some(c))]);
    assert ForkOk(t, c);
    forall i | 0 <= i < 64 ensures ParentOk(u, i) {
      assert ParentOk(t, i);
    }
    forall d | 0 <= d < 64 && u.forking[d].Some? ensures ForkOk(u, d) {
      assert ForkOk(t, d);
    }
  }

  lemma StartKeeps(t: Table, c: nat, e: nat)
    requires Inv(t) && c < 64 && t.forking[c] == Some(e) && e < 64 && t.ps[e].parent == Some(c)
    ensures Inv(t.(ps := t.ps[e := t.ps[e].(state := RUNNABLE)], forking := t.forking[c := None]))
  {
    var u := t.(ps := t.ps[e := t.ps[e].(state := RUNNABLE)], forking := t.forking[c := None]);
    assert ForkOk(t, c);
    forall i | 0 <= i < 64 ensures ParentOk(u, i) {
      assert ParentOk(t, i);
    }
    forall d | 0 <= d < 64 && u.forking[d].Some? ensures ForkOk(u, d) {
      assert ForkOk(t, d);
    }
  }

  /** A live process changes how it is alive; if it goes to sleep in wait it has no ZOMBIE child. */
  lemma LiveKeeps(t: Table, i: nat, state: PState, chan: Option<Chan>, killed: bool)
    requires Inv(t) && i < 64 && Alive(t.ps[i]) && (state.SLEEPING? || state.RUNNABLE? || state.RUNNING?)
    requires state.SLEEPING? && chan == Some(Entry(i)) ==> NoZombieOf(t.ps, i)
    ensures Inv(t.(ps := t.ps[i := t.ps[i].(state := state, chan := chan, killed := killed)]))
  {
    var u := t.(ps := t.ps[i := t.ps[i].(state := state, chan := chan, killed := killed)]);
    forall j | 0 <= j < 64 ensures ParentOk(u, j) {
      assert ParentOk(t, j);
    }
    forall d | 0 <= d < 64 && u.forking[d].Some? ensures ForkOk(u, d) {
      assert ForkOk(t, d);
    }
  }

  ghost predicate NoZombieOf(ps: seq<Proc>, i: nat) {
    forall c | 0 <= c < |ps| :: !(ps[c].parent == Some(i) && ps[c].state.ZOMBIE?)
  }

  /** Reaping a ZOMBIE child: its pid was not reaped before. */
  lemma ReapKeeps(t: Table, c: nat, z: nat)
    requires Inv(t) && c < 64 && z < 64 && t.ps[z].parent == Some(c) && t.ps[z].state.ZOMBIE?
    ensures t.ps[z].pid !in t.reaped
    ensures Inv(t.(ps := t.ps[z := t.ps[z].(state := UNUSED, pid := 0, parent := None, killed := false)],
                   reaped := t.reaped + {t.ps[z].pid}))
  {
    var u := t.(ps := t.ps[z := t.ps[z].(state := UNUSED, pid := 0, parent := None, killed := false)],
                reaped := t.reaped + {t.ps[z].pid});
    forall j | 0 <= j < 64 ensures ParentOk(u, j) {
      assert ParentOk(t, j);
    }
    forall d | 0 <= d < 64 && u.forking[d].Some? ensures ForkOk(u, d) {
      assert ForkOk(t, d);
    }
  }

  // ----- exit -----

  function Adopted(p: Proc, cur: nat, init: nat): Proc {
    if p.parent == Some(cur) then p.(parent := Some(init)) else p
  }

  function Adopt(ps: seq<Proc>, cur: nat, init: nat, k: nat): (r: seq<Proc>)
    requires k <= |ps|
    ensures |r| == |ps|
    ensures forall i | 0 <= i < |ps| :: r[i] == if i < k then Adopted(ps[i], cur, init) else ps[i]
  {
    seq(|ps|, i requires 0 <= i < |ps| => if i < k then Adopted(ps[i], cur, init) else ps[i])
  }

  predicate ZombieBelow(ps: seq<Proc>, cur: nat, k: nat)
    requires k <= |ps|
  {
    exists i :: 0 <= i < k && ps[i].parent == Some(cur) && ps[i].state.ZOMBIE?
  }

  /** The table after the first k entries were looked at for abandoned children. */
  function Passed(ps: seq<Proc>, cur: nat, init: nat, k: nat): (r: seq<Proc>)
    requires k <= |ps|
    ensures |r| == |ps|
  {
    var a := Adopt(ps, cur, init, k);
    if ZombieBelow(ps, cur, k) then Wake(a, Entry(init)) else a
  }

  /** The parent is woken, the children go to init, init is woken for those that are ZOMBIE. */
  function Exited(ps: seq<Proc>, cur: nat, init: nat): (r: seq<Proc>)
    requires cur < |ps| && ps[cur].parent.Some?
    ensures |r| == |ps|
  {
    var woken := Wake(ps, Entry(ps[cur].parent.value));
    var passed := Passed(woken, cur, init, |ps|);
    passed[cur := passed[cur].(state := ZOMBIE)]
  }

  lemma ExitKeeps(t: Table, cur: nat)
    requires Inv(t) && cur < 64 && cur != t.init && t.ps[cur].state.RUNNING? && t.forking[cur] == None
    ensures t.ps[cur].parent.Some? && Inv(t.(ps := Exited(t.ps, cur, t.init)))
  {
    assert ParentOk(t, cur);
    var par := t.ps[cur].parent.value;
    var woken := Wake(t.ps, Entry(par));
    RousedKeeps(t, woken);
    var a := t.(ps := woken);
    AdoptKeeps(a, cur);
    var b := a.(ps := Passed(woken, cur, t.init, 64));
    ZombieKeeps(b, cur);
  }

  ghost predicate HasZombie(ps: seq<Proc>, cur: nat) {
    exists z :: 0 <= z < |ps| && ps[z].parent == Some(cur) && ps[z].state.ZOMBIE?
  }

  /** Entry i after the children of cur went to init: those who slept in wait as init wake up if a
      child is a ZOMBIE, nothing else changes. */
  ghost predicate PassedAt(ps: seq<Proc>, q: Proc, cur: nat, init: nat, i: nat)
    requires i < |ps|
  {
    var p := ps[i];
    && q.pid == p.pid && q.killed == p.killed && q.chan == p.chan
    && q.parent == (if p.parent == Some(cur) then Some(init) else p.parent)
    && q.state == if p.state == SLEEPING && p.chan == Some(Entry(init)) && HasZombie(ps, cur) then RUNNABLE else p.state
  }

  lemma PassedIs(ps: seq<Proc>, cur: nat, init: nat)
    ensures forall i | 0 <= i < |ps| :: PassedAt(ps, Passed(ps, cur, init, |ps|)[i], cur, init, i)
  {
    assert ZombieBelow(ps, cur, |ps|) <==> HasZombie(ps, cur);
  }

  /** Entry i after cur has exited: cur is a ZOMBIE, its children belong to init, and who slept in
      wait as its parent, or as init if one of the children is a ZOMBIE, is RUNNABLE. */
  ghost predicate ExitedAt(ps: seq<Proc>, q: Proc, cur: nat, init: nat, i: nat)
    requires i < |ps| && cur < |ps| && ps[cur].parent.Some?
  {
    var p := ps[i];
    && q.pid == p.pid && q.killed == p.killed && q.chan == p.chan
    && q.parent == (if p.parent == Some(cur) then Some(init) else p.parent)
    && q.state == if i == cur then ZOMBIE
                  else if p.state == SLEEPING
                       && (p.chan == Some(Entry(ps[cur].parent.value)) || (p.chan == Some(Entry(init)) && HasZombie(ps, cur)))
                  then RUNNABLE
                  else p.state
  }

  lemma ExitedIs(ps: seq<Proc>, cur: nat, init: nat)
    requires cur < |ps| && ps[cur].parent.Some?
    ensures forall i | 0 <= i < |ps| :: ExitedAt(ps, Exited(ps, cur, init)[i], cur, init, i)
  {
    hide Passed;
    var woken := Wake(ps, Entry(ps[cur].parent.value));
    PassedIs(woken, cur, init);
    assert HasZombie(woken, cur) <==> HasZombie(ps, cur) by {
      assert forall z | 0 <= z < |ps| ::
          woken[z].parent == ps[z].parent && (woken[z].state.ZOMBIE? <==> ps[z].state.ZOMBIE?);
    }
    forall i | 0 <= i < |ps| ensures ExitedAt(ps, Exited(ps, cur, init)[i], cur, init, i) {
      assert PassedAt(woken, Passed(woken, cur, init, |ps|)[i], cur, init, i);
    }
  }

  lemma ExitedChildless(ps: seq<Proc>, qs: seq<Proc>, cur: nat, init: nat)
    requires |qs| == |ps| && cur < |ps| && cur != init && ps[cur].parent.Some?
    requires forall i | 0 <= i < |ps| :: ExitedAt(ps, qs[i], cur, init, i)
    ensures forall i | 0 <= i < |ps| :: qs[i].parent != Some(cur)
  {
  }

  lemma AdoptKeeps(t: Table, cur: nat)
    requires Inv(t) && cur < 64 && cur != t.init && t.ps[cur].state.RUNNING? && t.forking[cur] == None
    requires t.ps[cur].parent.Some? && t.ps[cur].parent.value < 64
    requires !InWait(t.ps[t.ps[cur].parent.value], t.ps[cur].parent.value)
    ensures var u := t.(ps := Passed(t.ps, cur, t.init, 64));
      && Inv(u) && u.ps[cur] == t.ps[cur] && Childless(u, cur)
      && !InWait(u.ps[t.ps[cur].parent.value], t.ps[cur].parent.value)
  {
    hide Passed, Parents, NoMissedExit, Pids, Forks;
    var u := t.(ps := Passed(t.ps, cur, t.init, 64));
    Parented(t, cur);
    PassedLike(t, cur);
    AdoptParents(t, u, cur);
    AdoptExits(t, u, cur);
    AdoptPids(t, u, cur);
  }

  // What passing over the table does to an entry.
  ghost predicate Like(p: Proc, q: Proc, cur: nat, init: nat) {
    var a := Adopted(p, cur, init);
    q == a || (a.state.SLEEPING? && q == a.(state := RUNNABLE))
  }

  ghost predicate AllLike(t: Table, u: Table, cur: nat) {
    && u == t.(ps := u.ps) && |u.ps| == |t.ps|
    && forall i | 0 <= i < |t.ps| :: Like(t.ps[i], u.ps[i], cur, t.init)
  }

  lemma Parented(t: Table, cur: nat)
    requires Shape(t) && Parents(t) && cur < 64 && cur != t.init && t.ps[cur].state.RUNNING?
    ensures t.ps[cur].parent.Some? && t.ps[cur].parent.value != cur && t.ps[t.init].parent == None
  {
    assert ParentOk(t, cur) && ParentOk(t, t.init);
  }

  lemma PassedLike(t: Table, cur: nat)
    requires |t.ps| == 64 && cur < 64 && t.init < 64
    ensures var u := t.(ps := Passed(t.ps, cur, t.init, 64));
      && AllLike(t, u, cur)
      && (t.ps[cur].parent != Some(cur) && t.ps[cur].state.RUNNING? ==> u.ps[cur] == t.ps[cur])
      && (!NoZombieOf(t.ps, cur) ==> !InWait(u.ps[t.init], t.init))
  {
  }

  lemma AdoptParents(t: Table, u: Table, cur: nat)
    requires Shape(t) && Parents(t) && Forks(t) && AllLike(t, u, cur) && cur < 64 && t.forking[cur] == None
    requires cur != t.init
    ensures Shape(u) && Parents(u) && Forks(u) && Childless(u, cur)
  {
    assert ParentOk(t, t.init);
    assert forall i | 0 <= i < 64 :: Like(t.ps[i], u.ps[i], cur, t.init);
    forall i | 0 <= i < 64 ensures ParentOk(u, i) {
      assert ParentOk(t, i) && Like(t.ps[i], u.ps[i], cur, t.init);
    }
    forall d | 0 <= d < 64 && u.forking[d].Some? ensures ForkOk(u, d) {
      assert ForkOk(t, d);
      assert ParentOk(t, t.forking[d].value) && Like(t.ps[d], u.ps[d], cur, t.init);
    }
  }

  lemma AdoptExits(t: Table, u: Table, cur: nat)
    requires Shape(t) && Shape(u) && NoMissedExit(t) && AllLike(t, u, cur)
    requires !NoZombieOf(t.ps, cur) ==> !InWait(u.ps[t.init], t.init)
    ensures NoMissedExit(u)
    ensures forall i | 0 <= i < 64 && !InWait(t.ps[i], i) :: !InWait(u.ps[i], i)
  {
    forall c | 0 <= c < 64 && u.ps[c].state.ZOMBIE? && u.ps[c].parent.Some? && u.ps[c].parent.value < 64
      ensures !InWait(u.ps[u.ps[c].parent.value], u.ps[c].parent.value)
    {
      assert Like(t.ps[c], u.ps[c], cur, t.init);
      var w := u.ps[c].parent.value;
      assert Like(t.ps[w], u.ps[w], cur, t.init);
    }
    forall i | 0 <= i < 64 && !InWait(t.ps[i], i) ensures !InWait(u.ps[i], i) {
      assert Like(t.ps[i], u.ps[i], cur, t.init);
    }
  }

  lemma AdoptPids(t: Table, u: Table, cur: nat)
    requires Shape(t) && Shape(u) && Pids(t) && AllLike(t, u, cur)
    ensures Pids(u)
  {
    assert forall i | 0 <= i < 64 :: Like(t.ps[i], u.ps[i], cur, t.init);
  }

  ghost predicate Childless(t: Table, cur: nat) {
    forall i | 0 <= i < |t.ps| :: t.ps[i].parent != Some(cur)
  }

  lemma ZombieKeeps(t: Table, cur: nat)
    requires Inv(t) && cur < 64 && cur != t.init && t.ps[cur].state.RUNNING? && t.forking[cur] == None
    requires Childless(t, cur) && t.ps[cur].parent.Some? && t.ps[cur].parent.value < 64
    requires !InWait(t.ps[t.ps[cur].parent.value], t.ps[cur].parent.value)
    ensures Inv(t.(ps := t.ps[cur := t.ps[cur].(state := ZOMBIE)]))
  {
    var u := t.(ps := t.ps[cur := t.ps[cur].(state := ZOMBIE)]);
    forall j | 0 <= j < 64 ensures ParentOk(u, j) {
      assert ParentOk(t, j);
    }
    forall d | 0 <= d < 64 && u.forking[d].Some? ensures ForkOk(u, d) {
      assert ForkOk(t, d);
    }
  }

  datatype Waited = Reaped(pid: nat) | NoChildren | Slept

  class Processes {
    const procs: array<Proc>
    const initproc: nat
    var nextpid: nat
    ghost var reaped: set<nat>
    ghost var forking: seq<Option<nat>>

    ghost function Now(): Table
      reads this, procs
    {
      Table(procs[..], initproc, nextpid, reaped, forking)
    }

    ghost predicate Valid()
      reads this, procs
    {
      procs.Length == 64 && Inv(Now())
    }

    /** The table once the first process has been set up. */
    constructor ()
      ensures Valid() && fresh(procs) && reaped == {} && initproc == 0 && procs[0].state == RUNNABLE
      ensures forall i | 1 <= i < 64 :: procs[i].state == UNUSED && forking[i] == None
    {
      procs := new Proc[64](i => if i == 0 then Proc(RUNNABLE, 1, None, None, false)
                                 else Proc(UNUSED, 0, None, None, false));
      initproc := 0;
      nextpid := 2;
      reaped := {};
      forking := seq(64, _ => None);
    }

    method Wakeup1(ch: Chan)
      requires procs.Length == 64
      modifies procs
      ensures procs[..] == Wake(old(procs[..]), ch)
      ensures forall i | 0 <= i < 64 :: !(procs[i].state == SLEEPING && procs[i].chan == Some(ch))
      ensures forall i | 0 <= i < 64 :: procs[i] ==
                if old(procs[i]).state == SLEEPING && old(procs[i]).chan == Some(ch) then old(procs[i]).(state := RUNNABLE)
                else old(procs[i])
    {
      for i := 0 to 64
        invariant forall j | 0 <= j < 64 :: procs[j] == if j < i then Woken(old(procs[j]), ch) else old(procs[j])
      {
        if procs[i].state == SLEEPING && procs[i].chan == Some(ch) {
          procs[i] := procs[i].(state := RUNNABLE);
        }
      }
    }

    /** The locked part of allocproc, called by process cur: an entry of its own with a new pid. */
    method Allocproc(cur: nat) returns (r: Option<nat>)
      requires Valid() && cur < 64 && Alive(procs[cur]) && forking[cur] == None
      modifies this, procs
      ensures Valid()
      ensures r.None? <==> forall i | 0 <= i < 64 :: old(procs[i]).state != UNUSED
      ensures r.None? ==> Now() == old(Now())
      ensures r.Some? ==>
        && r.value < 64 && (forall i | 0 <= i < r.value :: old(procs[i]).state != UNUSED)
        && forking == old(forking)[cur := r] && nextpid == old(nextpid) + 1 && reaped == old(reaped)
        && procs[..] == old(procs[..])[r.value := old(procs[r.value]).(state := EMBRYO, pid := old(nextpid))]
        && (forall i | 0 <= i < 64 && old(procs[i]).state != UNUSED :: old(procs[i]).pid < procs[r.value].pid)
        && Enabled(old(Now()), EAlloc(cur, r.value)) && Now() == After(old(Now()), EAlloc(cur, r.value))
    {
      for i := 0 to 64
        invariant Now() == old(Now())
        invariant forall j | 0 <= j < i :: procs[j].state != UNUSED
      {
        if procs[i].state == UNUSED {
          AllocKeeps(Now(), cur, i);
          procs[i] := procs[i].(state := EMBRYO, pid := nextpid);
          nextpid := nextpid + 1;
          forking := forking[cur := Some(i)];
          assert procs[..] == old(procs[..])[i := procs[i]];
          return Some(i);
        }
      }
      r := None;
    }

    /** Creation failed for want of memory. */
    method Abandon(cur: nat, e: nat)
      requires Valid() && cur < 64 && forking[cur] == Some(e) && e < 64 && procs[e].parent == None
      modifies this, procs
      ensures Valid() && forking == old(forking)[cur := None] && reaped == old(reaped) && nextpid == old(nextpid)
      ensures procs[..] == old(procs[..])[e := old(procs[e]).(state := UNUSED)]
      ensures Enabled(old(Now()), EAbandon(cur, e)) && Now() == After(old(Now()), EAbandon(cur, e))
    {
      AbandonKeeps(Now(), cur, e);
      procs[e] := procs[e].(state := UNUSED);
      forking := forking[cur := None];
      assert procs[..] == old(procs[..])[e := procs[e]];
    }

    /** The rest of fork on the new entry: first its parent, then RUNNABLE. */
    method Launch(cur: nat, e: nat)
      requires Valid() && cur < 64 && forking[cur] == Some(e) && e < 64
      modifies this, procs
      ensures Valid() && forking == old(forking)[cur := None] && reaped == old(reaped) && nextpid == old(nextpid)
      ensures procs[..] == old(procs[..])[e := old(procs[e]).(state := RUNNABLE, parent := Some(cur))]
      ensures
        && Enabled(old(Now()), EAttach(cur, e))
        && var t := After(old(Now()), EAttach(cur, e));
        && Shape(t) && Enabled(t, EStart(cur, e)) && Now() == After(t, EStart(cur, e))
    {
      AttachKeeps(Now(), cur, e);
      procs[e] := procs[e].(parent := Some(cur));
      assert procs[..] == old(procs[..])[e := procs[e]];
      StartKeeps(Now(), cur, e);
      ghost var was := procs[..];
      procs[e] := procs[e].(state := RUNNABLE);
      assert procs[..] == was[e := procs[e]];
      forking := forking[cur := None];
    }

    /** The locked part of exit. Init must not exit. */
    method Exit(cur: nat) returns (panicked: bool)
      requires Valid() && cur < 64 && procs[cur].state == RUNNING && forking[cur] == None
      modifies procs
      ensures Valid() && panicked == (cur == initproc)
      ensures panicked ==> Now() == old(Now())
      ensures !panicked ==>
        && old(procs[cur]).parent.Some?
        && (forall i | 0 <= i < 64 :: ExitedAt(old(procs[..]), procs[i], cur, initproc, i))
        && Childless(Now(), cur)
        && Now() == After(old(Now()), EExit(cur))
    {
      hide Inv, Passed, Wake, ExitedAt;
      if cur == initproc {
        return true;
      }
      ExitKeeps(Now(), cur);
      ghost var was := procs[..];
      ExitedIs(was, cur, initproc);
      ExitedChildless(was, Exited(was, cur, initproc), cur, initproc);
      Wakeup1(Entry(procs[cur].parent.value));
      PassChildren(cur);
      procs[cur] := procs[cur].(state := ZOMBIE);
      panicked := false;
    }

    /** The loop of exit: children go to init, which is woken for those that are ZOMBIE. */
    method PassChildren(cur: nat)
      requires procs.Length == 64
      modifies procs
      ensures procs[..] == Passed(old(procs[..]), cur, initproc, 64)
      ensures forall i | 0 <= i < 64 :: PassedAt(old(procs[..]), procs[i], cur, initproc, i)
    {
      ghost var woken := procs[..];
      PassedIs(woken, cur, initproc);
      for i := 0 to 64
        invariant procs[..] == Passed(woken, cur, initproc, i)
      {
        PassOne(woken, cur, initproc, i);
        ghost var was := procs[..];
        if procs[i].parent == Some(cur) {
          procs[i] := procs[i].(parent := Some(initproc));
          if procs[i].state == ZOMBIE {
            Wakeup1(Entry(initproc));
          }
        }
      }
    }

    /** One turn of the loop in wait: reaps the first ZOMBIE child in the table, gives up if there
        are no children or the caller was killed, else goes to sleep. */
    method Wait(cur: nat) returns (r: Waited)
      requires Valid() && cur < 64 && procs[cur].state == RUNNING && forking[cur] == None
      modifies this, procs
      ensures Valid()
      ensures r.Reaped? <==> !NoZombieOf(old(procs[..]), cur)
      ensures r.Reaped? ==> r.pid !in old(reaped) && reaped == old(reaped) + {r.pid}
      ensures r.Reaped? ==> ReapsOne(old(procs[..]), procs[..], cur, r.pid)
      ensures r.Reaped? ==>
        exists z :: 0 <= z < 64 && Enabled(old(Now()), EReap(cur, z)) && Now() == After(old(Now()), EReap(cur, z))
      ensures r.NoChildren? <==> NoZombieOf(old(procs[..]), cur) && (old(procs[cur]).killed || Childless(old(Now()), cur))
      ensures r.NoChildren? ==> Now() == old(Now())
      ensures r.Slept? ==>
        && procs[..] == old(procs[..])[cur := old(procs[cur]).(state := SLEEPING, chan := Some(Entry(cur)))]
        && Enabled(old(Now()), EWaitSleep(cur)) && Now() == After(old(Now()), EWaitSleep(cur))
    {
      var havekids := false;
      for i := 0 to 64
        invariant Now() == old(Now())
        invariant havekids <==> exists j :: 0 <= j < i && procs[j].parent == Some(cur)
        invariant forall j | 0 <= j < i :: !(procs[j].parent == Some(cur) && procs[j].state == ZOMBIE)
      {
        if procs[i].parent != Some(cur) {
          continue;
        }
        havekids := true;
        if procs[i].state == ZOMBIE {
          ReapKeeps(Now(), cur, i);
          var pid := procs[i].pid;
          procs[i] := procs[i].(pid := 0, parent := None, killed := false, state := UNUSED);
          reaped := reaped + {pid};
          assert procs[..] == old(procs[..])[i := procs[i]];
          assert Enabled(old(Now()), EReap(cur, i)) && Now() == After(old(Now()), EReap(cur, i));
          return Reaped(pid);
        }
      }
      if !havekids || procs[cur].killed {
        return NoChildren;
      }
      LiveKeeps(Now(), cur, SLEEPING, Some(Entry(cur)), procs[cur].killed);
      procs[cur] := procs[cur].(state := SLEEPING, chan := Some(Entry(cur)));
      assert procs[..] == old(procs[..])[cur := procs[cur]];
      r := Slept;
    }

    /** Marks the first process with this pid and wakes it if it sleeps. */
    method Kill(pid: nat) returns (r: int)
      requires Valid()
      modifies procs
      ensures Valid()
      ensures r == -1 <==> forall i | 0 <= i < 64 :: old(procs[i]).pid != pid
      ensures r == -1 ==> Now() == old(Now())
      ensures r != -1 ==> r == 0 && exists i :: 0 <= i < 64 && KillsAt(old(procs[..]), procs[..], pid, i)
      ensures r != -1 ==> exists i :: 0 <= i < 64 && Now() == After(old(Now()), EKill(i))
    {
      for i := 0 to 64
        invariant Now() == old(Now())
        invariant forall j | 0 <= j < i :: procs[j].pid != pid
      {
        if procs[i].pid == pid {
          KillKeeps(Now(), i);
          procs[i] := procs[i].(killed := true);
          if procs[i].state == SLEEPING {
            procs[i] := procs[i].(state := RUNNABLE);
          }
          assert procs[..] == old(procs[..])[i := procs[i]];
          assert KillsAt(old(procs[..]), procs[..], pid, i) && Now() == After(old(Now()), EKill(i));
          return 0;
        }
      }
      r := -1;
    }

    /** A running process goes to sleep on a channel other than its own entry. */
    method Sleep(cur: nat, n: nat)
      requires Valid() && cur < 64 && procs[cur].state == RUNNING
      modifies procs
      ensures Valid() && procs[..] == old(procs[..])[cur := old(procs[cur]).(state := SLEEPING, chan := Some(Other(n)))]
      ensures Now() == After(old(Now()), ESleep(cur, n))
    {
      LiveKeeps(Now(), cur, SLEEPING, Some(Other(n)), procs[cur].killed);
      procs[cur] := procs[cur].(state := SLEEPING, chan := Some(Other(n)));
      assert procs[..] == old(procs[..])[cur := procs[cur]];
    }

    /** The scheduler picks a process, which clears its channel when it comes back from sleep. */
    method Schedule(i: nat)
      requires Valid() && i < 64 && procs[i].state == RUNNABLE
      modifies procs
      ensures Valid() && procs[..] == old(procs[..])[i := old(procs[i]).(state := RUNNING, chan := None)]
      ensures Now() == After(old(Now()), ESchedule(i))
    {
      LiveKeeps(Now(), i, RUNNING, None, procs[i].killed);
      procs[i] := procs[i].(state := RUNNING, chan := None);
      assert procs[..] == old(procs[..])[i := procs[i]];
    }

    /** A running process gives up the processor. */
    method Yield(cur: nat)
      requires Valid() && cur < 64 && procs[cur].state == RUNNING
      modifies procs
      ensures Valid() && procs[..] == old(procs[..])[cur := old(procs[cur]).(state := RUNNABLE)]
      ensures Now() == After(old(Now()), EYield(cur))
    {
      LiveKeeps(Now(), cur, RUNNABLE, procs[cur].chan, procs[cur].killed);
      procs[cur] := procs[cur].(state := RUNNABLE);
      assert procs[..] == old(procs[..])[cur := procs[cur]];
    }

    method Wakeup(ch: Chan)
      requires Valid()
      modifies procs
      ensures Valid() && Now() == After(old(Now()), EWake(ch))
      ensures forall i | 0 <= i < 64 :: !(procs[i].state == SLEEPING && procs[i].chan == Some(ch))
      ensures forall i | 0 <= i < 64 :: procs[i] ==
                if old(procs[i]).state == SLEEPING && old(procs[i]).chan == Some(ch) then old(procs[i]).(state := RUNNABLE)
                else old(procs[i])
    {
      RousedKeeps(Now(), Wake(procs[..], ch));
      Wakeup1(ch);
    }
  }

  /** One ZOMBIE child of cur, the first in the table, is gone. */
  ghost predicate ReapsOne(ps: seq<Proc>, qs: seq<Proc>, cur: nat, pid: nat) {
    exists z :: 0 <= z < |ps| && ps[z].parent == Some(cur) && ps[z].state.ZOMBIE? && ps[z].pid == pid
      && qs == ps[z := ps[z].(state := UNUSED, pid := 0, parent := None, killed := false)]
      && forall j | 0 <= j < z :: !(ps[j].parent == Some(cur) && ps[j].state.ZOMBIE?)
  }

  function Killed(p: Proc): Proc {
    p.(killed := true, state := if p.state.SLEEPING? then RUNNABLE else p.state)
  }

  /** The first process with the pid, entry i, is marked and no longer asleep; nothing else changes. */
  ghost predicate KillsAt(ps: seq<Proc>, qs: seq<Proc>, pid: nat, i: nat) {
    && i < |ps| == |qs| && ps[i].pid == pid && (forall j | 0 <= j < i :: ps[j].pid != pid)
    && qs[i].killed && qs[i].state == (if ps[i].state == SLEEPING then RUNNABLE else ps[i].state)
    && qs[i].pid == pid && qs[i].parent == ps[i].parent && qs[i].chan == ps[i].chan
    && forall j | 0 <= j < |ps| && j != i :: qs[j] == ps[j]
  }

  lemma KillKeeps(t: Table, i: nat)
    requires Inv(t) && i < 64
    ensures Inv(t.(ps := t.ps[i := Killed(t.ps[i])]))
  {
    var u := t.(ps := t.ps[i := Killed(t.ps[i])]);
    forall j | 0 <= j < 64 ensures ParentOk(u, j) {
      assert ParentOk(t, j);
    }
    forall d | 0 <= d < 64 && u.forking[d].Some? ensures ForkOk(u, d) {
      assert ForkOk(t, d);
    }
  }

  lemma PassOne(ps: seq<Proc>, cur: nat, init: nat, k: nat)
    requires k < |ps|
    ensures var p, q := Passed(ps, cur, init, k), Passed(ps, cur, init, k + 1);
      && (p[k].parent != Some(cur) ==> q == p)
      && (p[k].parent == Some(cur) ==>
            var r := p[k := p[k].(parent := Some(init))];
            q == if p[k].state.ZOMBIE? then Wake(r, Entry(init)) else r)
  {
  }

  // ----- runs -----

  datatype Event =
    | EAlloc(c: nat, e: nat) | EAbandon(c: nat, e: nat) | EAttach(c: nat, e: nat) | EStart(c: nat, e: nat)
    | EExit(c: nat) | EReap(c: nat, e: nat) | EWaitSleep(c: nat)
    | ESleep(c: nat, n: nat) | ESchedule(c: nat) | EYield(c: nat)
    | EWake(ch: Chan) | EKill(e: nat)

  /** The sections that can run now. */
  predicate Enabled(t: Table, ev: Event)
    requires Shape(t)
  {
    && (ev.EWake? || ev.EKill? || ev.c < 64)
    && (ev.EAlloc? || ev.EAbandon? || ev.EAttach? || ev.EStart? || ev.EReap? || ev.EKill? ==> ev.e < 64)
    && match ev
       case EAlloc(c, e) => Alive(t.ps[c]) && t.forking[c] == None && t.ps[e].state.UNUSED?
       case EAbandon(c, e) => t.forking[c] == Some(e) && t.ps[e].parent == None
       case EAttach(c, e) => t.forking[c] == Some(e)
       case EStart(c, e) => t.forking[c] == Some(e) && t.ps[e].parent == Some(c)
       case EExit(c) => c != t.init && t.ps[c].state.RUNNING? && t.forking[c] == None && t.ps[c].parent.Some?
       case EReap(c, e) => t.ps[e].parent == Some(c) && t.ps[e].state.ZOMBIE?
       case EWaitSleep(c) =>
         t.ps[c].state.RUNNING? && forall i | 0 <= i < 64 :: !(t.ps[i].parent == Some(c) && t.ps[i].state.ZOMBIE?)
       case ESleep(c, n) => t.ps[c].state.RUNNING?
       case ESchedule(c) => t.ps[c].state.RUNNABLE?
       case EYield(c) => t.ps[c].state.RUNNING?
       case EWake(_) => true
       case EKill(_) => true
  }

  function After(t: Table, ev: Event): Table
    requires Shape(t) && Enabled(t, ev)
  {
    match ev
    case EAlloc(c, e) => t.(ps := t.ps[e := t.ps[e].(state := EMBRYO, pid := t.nextpid)], nextpid := t.nextpid + 1,
                            forking := t.forking[c := Some(e)])
    case EAbandon(c, e) => t.(ps := t.ps[e := t.ps[e].(state := UNUSED)], forking := t.forking[c := None])
    case EAttach(c, e) => t.(ps := t.ps[e := t.ps[e].(parent := Some(c))])
    case EStart(c, e) => t.(ps := t.ps[e := t.ps[e].(state := RUNNABLE)], forking := t.forking[c := None])
    case EExit(c) => t.(ps := Exited(t.ps, c, t.init))
    case EReap(c, e) => t.(ps := t.ps[e := t.ps[e].(state := UNUSED, pid := 0, parent := None, killed := false)],
                           reaped := t.reaped + {t.ps[e].pid})
    case EWaitSleep(c) => t.(ps := t.ps[c := t.ps[c].(state := SLEEPING, chan := Some(Entry(c)))])
    case ESleep(c, n) => t.(ps := t.ps[c := t.ps[c].(state := SLEEPING, chan := Some(Other(n)))])
    case ESchedule(c) => t.(ps := t.ps[c := t.ps[c].(state := RUNNING, chan := None)])
    case EYield(c) => t.(ps := t.ps[c := t.ps[c].(state := RUNNABLE)])
    case EWake(ch) => t.(ps := Wake(t.ps, ch))
    case EKill(e) => t.(ps := t.ps[e := Killed(t.ps[e])])
  }

  lemma StepKeeps(t: Table, ev: Event)
    requires Inv(t) && Enabled(t, ev)
    ensures Inv(After(t, ev)) && t.reaped <= After(t, ev).reaped
  {
    hide Inv;
    assert Shape(t) by { ShapeOf(t); }
    match ev
    case EAlloc(c, e) => AllocKeeps(t, c, e);
    case EAbandon(c, e) => AbandonKeeps(t, c, e);
    case EAttach(c, e) => AttachKeeps(t, c, e);
    case EStart(c, e) => StartKeeps(t, c, e);
    case EExit(c) => ExitKeeps(t, c);
    case EReap(c, e) => ReapKeeps(t, c, e);
    case EWaitSleep(c) => LiveKeeps(t, c, SLEEPING, Some(Entry(c)), t.ps[c].killed);
    case ESleep(c, n) => LiveKeeps(t, c, SLEEPING, Some(Other(n)), t.ps[c].killed);
    case ESchedule(c) => LiveKeeps(t, c, RUNNING, None, t.ps[c].killed);
    case EYield(c) => LiveKeeps(t, c, RUNNABLE, t.ps[c].chan, t.ps[c].killed);
    case EWake(ch) => RousedKeeps(t, Wake(t.ps, ch));
    case EKill(e) => KillKeeps(t, e);
  }

  lemma ShapeOf(t: Table)
    requires Inv(t)
    ensures Shape(t)
  {
  }

  ghost predicate Run(ts: seq<Table>, evs: seq<Event>) {
    |ts| == |evs| + 1 &&
    forall i | 0 <= i < |evs| :: Shape(ts[i]) && Enabled(ts[i], evs[i]) && ts[i + 1] == After(ts[i], evs[i])
  }

  /** The invariant holds in every state of every run, and what was reaped stays reaped. */
  lemma {:induction false} RunKeeps(ts: seq<Table>, evs: seq<Event>, i: nat)
    requires Run(ts, evs) && Inv(ts[0]) && i <= |evs|
    ensures Inv(ts[|evs|]) && ts[i].reaped <= ts[|evs|].reaped
    decreases |evs|
  {
    hide Inv;
    var n := |evs|;
    if n > 0 {
      assert Shape(ts[n - 1]) && Enabled(ts[n - 1], evs[n - 1]) && ts[n] == After(ts[n - 1], evs[n - 1]);
      RunKeeps(ts[..n], evs[..n - 1], if i < n then i else 0);
      StepKeeps(ts[n - 1], evs[n - 1]);
    }
  }

  /** What wakes process i: a wakeup of its channel, a kill, or, if it waits for children, the exit of
      a child, or as init the exit of a process with a ZOMBIE child. */
  ghost predicate Wakes(t: Table, ev: Event, i: nat)
    requires Shape(t) && i < 64 && Enabled(t, ev)
  {
    match ev
    case EWake(ch) => t.ps[i].chan == Some(ch)
    case EKill(e) => e == i
    case EExit(c) =>
      t.ps[i].chan == Some(Entry(t.ps[c].parent.value)) || (t.ps[i].chan == Some(Entry(t.init)) && HasZombie(t.ps, c))
    case _ => false
  }

  lemma SleepsUntil(t: Table, ev: Event, i: nat)
    requires Inv(t) && Enabled(t, ev) && i < 64 && t.ps[i].state.SLEEPING?
    ensures |After(t, ev).ps| == 64
    ensures
      var q := After(t, ev).ps[i];
      q.chan == t.ps[i].chan && q.state == if Wakes(t, ev, i) then RUNNABLE else SLEEPING
  {
    hide Pids, NoMissedExit, Parents, Exited;
    if ev.EExit? {
      ExitedIs(t.ps, ev.c, t.init);
    } else if ev.EAbandon? || ev.EAttach? || ev.EStart? {
      assert ForkOk(t, ev.c);
    }
  }

  /** Asleep on channel ch. */
  predicate Asleep(t: Table, i: nat, ch: Chan) {
    i < |t.ps| && t.ps[i].state.SLEEPING? && t.ps[i].chan == Some(ch)
  }

  ghost predicate NeverWoken(ts: seq<Table>, evs: seq<Event>, i: nat)
    requires Run(ts, evs) && i < 64
  {
    forall k | 0 <= k < |evs| :: !Wakes(ts[k], evs[k], i)
  }

  /** In every run a process stays asleep exactly as long as nothing wakes it. */
  lemma {:induction false} SleeperRun(ts: seq<Table>, evs: seq<Event>, i: nat, ch: Chan)
    requires Run(ts, evs) && Inv(ts[0]) && i < 64 && Asleep(ts[0], i, ch)
    ensures (forall k | 0 <= k <= |evs| :: Asleep(ts[k], i, ch)) <==> NeverWoken(ts, evs, i)
    decreases |evs|
  {
    hide Inv, Wakes, After, Enabled, Shape, Asleep;
    var n := |evs|;
    if n > 0 {
      assert Shape(ts[n - 1]) && Enabled(ts[n - 1], evs[n - 1]) && ts[n] == After(ts[n - 1], evs[n - 1]);
      SleeperRun(ts[..n], evs[..n - 1], i, ch);
      RunKeeps(ts[..n], evs[..n - 1], 0);
      SleeperStep(ts[n - 1], evs[n - 1], ts[n], i, ch);
      assert NeverWoken(ts, evs, i) <==> NeverWoken(ts[..n], evs[..n - 1], i) && !Wakes(ts[n - 1], evs[n - 1], i);
    }
  }

  lemma SleeperStep(t: Table, ev: Event, u: Table, i: nat, ch: Chan)
    requires Inv(t) && Shape(t) && Enabled(t, ev) && i < 64 && u == After(t, ev)
    ensures Asleep(t, i, ch) ==> (Asleep(u, i, ch) <==> !Wakes(t, ev, i))
  {
    hide Inv, Wakes, After, Enabled;
    if Asleep(t, i, ch) {
      SleepsUntil(t, ev, i);
    }
  }

  /** No pid is reaped twice in a run. */
  lemma ReapedOnce(ts: seq<Table>, evs: seq<Event>, i: nat, j: nat)
    requires Run(ts, evs) && Inv(ts[0]) && i < j < |evs| && evs[i].EReap? && evs[j].EReap?
    ensures evs[i].e < 64 && evs[j].e < 64 && |ts[i].ps| == |ts[j].ps| == 64
    ensures ts[i].ps[evs[i].e].pid != ts[j].ps[evs[j].e].pid
  {
    hide Inv;
    assert Shape(ts[i]) && Enabled(ts[i], evs[i]) && ts[i + 1] == After(ts[i], evs[i]);
    assert Shape(ts[j]) && Enabled(ts[j], evs[j]);
    RunKeeps(ts[..j + 1], evs[..j], i + 1);
    ReapKeeps(ts[j], evs[j].c, evs[j].e);
  }
}
