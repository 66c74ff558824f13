/** Sleep and wakeup (src/proc.c) around a condition that is tested and changed under a spin lock,
    as interleaved steps of any number of processes; sleep locks (src/sleeplock.c) are the case
    where only a holder makes the condition true. */
module SleepWakeup {

  datatype Option<T> = None | Some(value: T)

  /** Where a process is. lk guards the condition, ptable.lock the process table. */
  datatype Pc =
    | Out
    | In                        // holds lk
    | Found(x: nat)             // holds lk, has read x > 0
    | Adding(x: nat)            // holds lk, has read x
    | Sleep1                    // found the condition false, holds lk, is about to take ptable.lock
    | Sleep2                    // holds both locks
    | Sleep3                    // holds ptable.lock, is about to become SLEEPING
    | Asleep                    // SLEEPING on the channel
    | Runnable                  // made RUNNABLE, not yet scheduled
    | Wake2                     // scheduled, holds ptable.lock
    | Wake3                     // is about to take lk again
    | Owes(inside: bool)        // made the condition true and has to call wakeup; inside: holds lk
    | Scans(i: nat, inside: bool)  // in wakeup1 with ptable.lock, past the table entries below i

  /** The condition is that there is something available. */
  datatype State = State(pcs: seq<Pc>, avail: nat, holders: set<nat>, lk: Option<nat>, pt: Option<nat>)

  datatype Action =
    | Acquire | Release | TestFalse | TestTrue | Take | Load | Put
    | SleepLock | SleepUnlock | FallAsleep | Schedule | Tidy | Reacquire
    | ReleaseEarly | StartWakeup | ScanOne | FinishWakeup
    | Kill

  predicate HasLk(p: Pc) {
    p.In? || p.Found? || p.Adding? || p.Sleep1? || p.Sleep2? || (p.Owes? && p.inside) || (p.Scans? && p.inside)
  }

  predicate HasPt(p: Pc) { p.Sleep2? || p.Sleep3? || p.Wake2? || p.Scans? }

  function Set(s: State, t: nat, p: Pc): State
    requires t < |s.pcs|
  {
    s.(pcs := s.pcs[t := p])
  }

  /** Process t can do a now. Kill stands for anyone killing process t. */
  predicate Enabled(s: State, t: nat, a: Action) {
    t < |s.pcs| &&
    var p := s.pcs[t];
    match a
    case Acquire => p.Out? && s.lk.None?
    case Release => p.In?
    case TestFalse => p.In? && s.avail == 0
    case TestTrue => p.In? && s.avail > 0
    case Take => p.Found?
    case Load => p.In?
    case Put => p.Adding?
    case SleepLock => p.Sleep1? && s.pt.None?
    case SleepUnlock => p.Sleep2?
    case FallAsleep => p.Sleep3?
    case Schedule => p.Runnable? && s.pt.None?
    case Tidy => p.Wake2?
    case Reacquire => p.Wake3? && s.lk.None?
    case ReleaseEarly => p.Owes? && p.inside
    case StartWakeup => p.Owes? && s.pt.None?
    case ScanOne => p.Scans? && p.i < |s.pcs|
    case FinishWakeup => p.Scans? && p.i >= |s.pcs|
    case Kill => p.Asleep? && s.pt.None?
  }

  function Next(s: State, t: nat, a: Action): State
    requires Enabled(s, t, a)
  {
    var p := s.pcs[t];
    match a
    case Acquire => Set(s, t, In).(lk := Some(t))
    case Release => Set(s, t, Out).(lk := None)
    case TestFalse => Set(s, t, Sleep1)
    case TestTrue => Set(s, t, Found(s.avail))
    case Take => Set(s, t, In).(avail := if p.x > 0 then p.x - 1 else 0, holders := s.holders + {t})
    case Load => Set(s, t, Adding(s.avail))
    case Put => Set(s, t, Owes(true)).(avail := p.x + 1, holders := s.holders - {t})
    case SleepLock => Set(s, t, Sleep2).(pt := Some(t))
    case SleepUnlock => Set(s, t, Sleep3).(lk := None)
    case FallAsleep => Set(s, t, Asleep).(pt := None)
    case Schedule => Set(s, t, Wake2).(pt := Some(t))
    case Tidy => Set(s, t, Wake3).(pt := None)
    case Reacquire => Set(s, t, In).(lk := Some(t))
    case ReleaseEarly => Set(s, t, Owes(false)).(lk := None)
    case StartWakeup => Set(s, t, Scans(0, p.inside)).(pt := Some(t))
    case ScanOne =>
      var woken := if s.pcs[p.i].Asleep? then Set(s, p.i, Runnable) else s;
      Set(woken, t, Scans(p.i + 1, p.inside))
    case FinishWakeup => Set(s, t, if p.inside then In else Out).(pt := None)
    case Kill => Set(s, t, Runnable)
  }

  /** A lock is taken exactly when the process that took it is where it holds it. */
  ghost predicate Locks(s: State) { LkHeld(s) && PtHeld(s) }

  ghost predicate LkHeld(s: State) {
    && (forall t | 0 <= t < |s.pcs| :: HasLk(s.pcs[t]) <==> s.lk == Some(t))
    && (s.lk.Some? ==> s.lk.value < |s.pcs|)
  }

  ghost predicate PtHeld(s: State) {
    && (forall t | 0 <= t < |s.pcs| :: HasPt(s.pcs[t]) <==> s.pt == Some(t))
    && (s.pt.Some? ==> s.pt.value < |s.pcs|)
  }

  /** What a process has read under lk is still so: the condition it found false on its way to
      sleep, and the value it is about to change. */
  ghost predicate ReadStill(s: State, t: nat)
    requires t < |s.pcs|
  {
    match s.pcs[t]
    case Sleep1 => s.avail == 0
    case Sleep2 => s.avail == 0
    case Found(x) => s.avail == x > 0
    case Adding(x) => s.avail == x
    case _ => true
  }

  ghost predicate Tested(s: State) {
    forall t | 0 <= t < |s.pcs| :: ReadStill(s, t)
  }

  /** A waker that has not yet looked at process t. */
  predicate Pending(p: Pc, t: nat) { p.Owes? || (p.Scans? && p.i <= t) }

  /** A process sleeps, or is about to, with the condition true only while a waker has yet to get
      to it. */
  ghost predicate NoLostWakeup(s: State) {
    forall t | 0 <= t < |s.pcs| && s.avail > 0 :: s.pcs[t].Asleep? || s.pcs[t].Sleep3? ==> SomePending(s, t)
  }

  ghost predicate SomePending(s: State, t: nat) {
    exists w :: 0 <= w < |s.pcs| && Pending(s.pcs[w], t)
  }

  ghost predicate Inv(s: State) { Locks(s) && Tested(s) && NoLostWakeup(s) }

  lemma LocksKept(s: State, t: nat, a: Action)
    requires Locks(s) && Enabled(s, t, a)
    ensures Locks(Next(s, t, a))
  {
    hide LkHeld, PtHeld;
    LkKept(s, t, a);
    PtKept(s, t, a);
  }

  lemma LkKept(s: State, t: nat, a: Action)
    requires LkHeld(s) && Enabled(s, t, a)
    ensures LkHeld(Next(s, t, a))
  {
  }

  lemma PtKept(s: State, t: nat, a: Action)
    requires PtHeld(s) && Enabled(s, t, a)
    ensures PtHeld(Next(s, t, a))
  {
  }

  lemma TestedKept(s: State, t: nat, a: Action)
    requires Locks(s) && Tested(s) && Enabled(s, t, a)
    ensures Tested(Next(s, t, a))
  {
    var s' := Next(s, t, a);
    forall u | 0 <= u < |s'.pcs| ensures ReadStill(s', u) {
      assert ReadStill(s, u) && ReadStill(s, t);
    }
  }

  lemma NoLostWakeupKept(s: State, t: nat, a: Action)
    requires Inv(s) && Enabled(s, t, a)
    ensures NoLostWakeup(Next(s, t, a))
  {
    hide Locks;
    var s' := Next(s, t, a);
    forall x | 0 <= x < |s'.pcs| && s'.avail > 0 && (s'.pcs[x].Asleep? || s'.pcs[x].Sleep3?)
      ensures SomePending(s', x)
    {
      StillPending(s, t, a, x);
    }
  }

  lemma StillPending(s: State, t: nat, a: Action, x: nat)
    requires Inv(s) && Enabled(s, t, a) && x < |s.pcs|
    requires var s' := Next(s, t, a); s'.avail > 0 && (s'.pcs[x].Asleep? || s'.pcs[x].Sleep3?)
    ensures SomePending(Next(s, t, a), x)
  {
    var s' := Next(s, t, a);
    if a == Put {
      assert Pending(s'.pcs[t], x);
    } else {
      assert ReadStill(s, t);
      assert s.avail > 0;
      assert s.pcs[x].Asleep? || s.pcs[x].Sleep3?;
      var w :| 0 <= w < |s.pcs| && Pending(s.pcs[w], x);
      assert Pending(s'.pcs[w], x);
    }
  }

  // ----- runs -----

  ghost predicate Init(s: State) {
    && (forall t | 0 <= t < |s.pcs| :: s.pcs[t] == Out)
    && s.lk == None && s.pt == None && s.holders == {}
  }

  ghost predicate Run(ss: seq<State>, ts: seq<nat>, acts: seq<Action>) {
    && |ss| == |ts| + 1 == |acts| + 1
    && forall i | 0 <= i < |acts| :: Enabled(ss[i], ts[i], acts[i]) && ss[i + 1] == Next(ss[i], ts[i], acts[i])
  }

  /** Every state of every run keeps the locking discipline and loses no wakeup. */
  lemma {:induction false} RunInv(ss: seq<State>, ts: seq<nat>, acts: seq<Action>)
    requires Run(ss, ts, acts) && Init(ss[0])
    ensures Inv(ss[|acts|])
    decreases |acts|
  {
    var n := |acts|;
    if n > 0 {
      RunInv(ss[..n], ts[..n - 1], acts[..n - 1]);
      var s, t, a := ss[n - 1], ts[n - 1], acts[n - 1];
      assert Enabled(s, t, a) && ss[n] == Next(s, t, a);
      LocksKept(s, t, a);
      TestedKept(s, t, a);
      NoLostWakeupKept(s, t, a);
    }
  }

  /** Once all wakers are done nobody sleeps with the condition true. */
  lemma QuietMeansAwake(s: State, t: nat)
    requires Inv(s) && t < |s.pcs| && s.avail > 0
    requires forall w | 0 <= w < |s.pcs| :: !s.pcs[w].Owes? && !s.pcs[w].Scans?
    ensures !s.pcs[t].Asleep?
  {
    assert !SomePending(s, t);
  }

  /** The steps that a wakeup in progress consists of or waits for. */
  predicate Wakes(a: Action) {
    a.StartWakeup? || a.ScanOne? || a.FinishWakeup? || a.SleepUnlock? || a.FallAsleep? || a.Tidy?
  }

  /** While somebody sleeps with the condition true, the wakeup is not stuck. */
  lemma NeverStuck(s: State, t: nat)
    requires Inv(s) && t < |s.pcs| && s.avail > 0 && s.pcs[t].Asleep?
    ensures exists w, a :: Enabled(s, w, a) && Wakes(a)
  {
    assert SomePending(s, t);
    var w :| 0 <= w < |s.pcs| && Pending(s.pcs[w], t);
    var x := if s.pcs[w].Owes? && s.pt.Some? then s.pt.value else w;
    var p := s.pcs[x];
    var a := if p.Sleep2? then SleepUnlock else if p.Sleep3? then FallAsleep else if p.Wake2? then Tidy
             else if p.Owes? then StartWakeup else if p.i < |s.pcs| then ScanOne else FinishWakeup;
    assert Enabled(s, x, a) && Wakes(a);
  }

  // ----- sleep locks -----

  /** Available or held by one process. */
  ghost predicate OneHolder(s: State) { s.avail + |s.holders| == 1 }

  /** Taking the lock is a test and a later store. Nothing came in between, because lk was held. */
  lemma OneHolderKept(s: State, t: nat, a: Action)
    requires Inv(s) && OneHolder(s) && Enabled(s, t, a) && (a.Put? ==> t in s.holders)
    ensures OneHolder(Next(s, t, a))
  {
    assert ReadStill(s, t);
    if a.Take? {
      assert s.holders == {};
    } else if a.Put? {
      assert s.holders == {t} + (s.holders - {t});
    }
  }

  /** If only a holder releases, a sleep lock has at most one holder in every state of every run. */
  lemma {:induction false} MutualExclusion(ss: seq<State>, ts: seq<nat>, acts: seq<Action>)
    requires Run(ss, ts, acts) && Init(ss[0]) && ss[0].avail == 1
    requires forall i | 0 <= i < |acts| :: acts[i].Put? ==> ts[i] in ss[i].holders
    ensures OneHolder(ss[|acts|])
    ensures forall x, y | x in ss[|acts|].holders && y in ss[|acts|].holders :: x == y
    decreases |acts|
  {
    var n := |acts|;
    if n > 0 {
      MutualExclusion(ss[..n], ts[..n - 1], acts[..n - 1]);
      RunInv(ss[..n], ts[..n - 1], acts[..n - 1]);
      assert Enabled(ss[n - 1], ts[n - 1], acts[n - 1]) && ss[n] == Next(ss[n - 1], ts[n - 1], acts[n - 1]);
      OneHolderKept(ss[n - 1], ts[n - 1], acts[n - 1]);
    }
    forall x, y | x in ss[n].holders && y in ss[n].holders ensures x == y {
      assert ss[n].holders == {x} + (ss[n].holders - {x});
    }
  }

  /** The spin lock is what makes it so: two processes that both found the lock free, as they could
      without it, both become holders. */
  lemma TwoWithoutLock(s: State)
    requires |s.pcs| >= 2 && s.pcs[0] == s.pcs[1] == Found(1) && s.avail == 1 && s.holders == {}
    ensures !Locks(s)
    ensures Enabled(s, 0, Take) && Enabled(Next(s, 0, Take), 1, Take)
    ensures Next(Next(s, 0, Take), 1, Take).holders == {0, 1}
  {
  }
}
