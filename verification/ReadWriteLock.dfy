/** The writer-preferring read/write lock: any number of threads, one statement at a time.

    The mutex is explicit; waiting on the condition variable releases it and reacquires
    it after a wakeup, and wakeups may be spurious.  A thread calls an unlock method only
    for a lock it holds, and no lock method while it holds one. */
module ReadWriteLockModel {

  // Who holds the mutex.
  datatype Owner = Nobody | Thread(t: nat)

  datatype Method = LockRead | TryLockRead | UnlockRead | LockWrite | TryLockWrite | UnlockWrite

  // Where a thread is in a method.
  datatype Point =
    | Enter                 // about to lock the mutex
    | Begin                 // ++_pending in lockWrite; the assertion and the -- in the unlock methods
    | Test                  // the condition of the loop (of the if, in the try methods)
    | Asleep                // in wait, not notified
    | Wake                  // in wait, about to relock the mutex
    | Claim                 // --_pending in lockWrite
    | Grant                 // ++_reader or ++_writer
    | Notify                // notifyAll, in unlockRead only if _reader == 0
    | Exit(got: bool)       // about to unlock the mutex and return

  datatype PC = Idle | Reading | Writing | In(m: Method, at: Point) | Failed

  datatype Act = Call(m: Method) | Run | Spurious

  datatype State = State(reader: int, writer: int, pending: int, mutex: Owner, pcs: seq<PC>)

  // ---------- the steps ----------

  predicate ReadBlocked(s: State) { s.writer > 0 || s.pending > 0 }
  predicate WriteBlocked(s: State) { s.writer > 0 || s.reader > 0 }

  predicate MayCall(pc: PC, m: Method) {
    match m
    case UnlockRead => pc == Reading
    case UnlockWrite => pc == Writing
    case _ => pc == Idle
  }

  // Waiting for the mutex.
  predicate Locking(pc: PC) {
    pc.In? && (pc.at.Enter? || pc.at.Wake?)
  }

  // Inside a method with the mutex held.
  predicate Holds(pc: PC) {
    pc.In? && !pc.at.Enter? && !pc.at.Wake? && !pc.at.Asleep?
  }

  predicate Enabled(s: State, t: nat, act: Act) {
    && t < |s.pcs|
    && match act
       case Call(m) => MayCall(s.pcs[t], m)
       case Spurious => s.pcs[t].In? && s.pcs[t].at.Asleep?
       case Run => if Locking(s.pcs[t]) then s.mutex.Nobody? else Holds(s.pcs[t])
  }

  function Woken(pc: PC): PC {
    if pc.In? && pc.at.Asleep? then In(pc.m, Wake) else pc
  }

  function NotifyAll(pcs: seq<PC>): seq<PC> {
    seq(|pcs|, i requires 0 <= i < |pcs| => Woken(pcs[i]))
  }

  // What a statement does: the new point, the changes of the counters, and whether it
  // takes the mutex, gives it up, or notifies all sleepers.
  datatype Effect = Effect(pc: PC, reader: int, writer: int, pending: int, take: bool, drop: bool, notify: bool)

  function Go(pc: PC): Effect { Effect(pc, 0, 0, 0, false, false, false) }
  function Take(pc: PC): Effect { Effect(pc, 0, 0, 0, true, false, false) }
  function Leave(pc: PC): Effect { Effect(pc, 0, 0, 0, false, true, false) }
  function Readers(d: int, pc: PC): Effect { Effect(pc, d, 0, 0, false, false, false) }
  function Writers(d: int, pc: PC): Effect { Effect(pc, 0, d, 0, false, false, false) }
  function Pendings(d: int, pc: PC): Effect { Effect(pc, 0, 0, d, false, false, false) }
  function Wakeup(all: bool, pc: PC): Effect { Effect(pc, 0, 0, 0, false, false, all) }

  function Statement(m: Method, at: Point, s: State): Effect {
    match m
    case LockRead =>
      (match at
       case Enter => Take(In(m, Test))
       case Test => if ReadBlocked(s) then Leave(In(m, Asleep)) else Go(In(m, Grant))
       case Wake => Take(In(m, Test))
       case Grant => Readers(1, In(m, Exit(true)))
       case Exit(_) => Leave(Reading)
       case _ => Go(In(m, at)))
    case UnlockRead =>
      (match at
       case Enter => Take(In(m, Begin))
       case Begin => if s.reader > 0 then Readers(-1, In(m, Notify)) else Go(Failed)
       case Notify => Wakeup(s.reader == 0, In(m, Exit(false)))
       case Exit(_) => Leave(Idle)
       case _ => Go(In(m, at)))
    case LockWrite =>
      (match at
       case Enter => Take(In(m, Begin))
       case Begin => Pendings(1, In(m, Test))
       case Test => if WriteBlocked(s) then Leave(In(m, Asleep)) else Go(In(m, Claim))
       case Wake => Take(In(m, Test))
       case Claim => Pendings(-1, In(m, Grant))
       case Grant => Writers(1, In(m, Exit(true)))
       case Exit(_) => Leave(Writing)
       case _ => Go(In(m, at)))
    case UnlockWrite =>
      (match at
       case Enter => Take(In(m, Begin))
       case Begin => if s.writer > 0 then Writers(-1, In(m, Notify)) else Go(Failed)
       case Notify => Wakeup(true, In(m, Exit(false)))
       case Exit(_) => Leave(Idle)
       case _ => Go(In(m, at)))
    case TryLockRead =>
      (match at
       case Enter => Take(In(m, Test))
       case Test => Go(In(m, if ReadBlocked(s) then Exit(false) else Grant))
       case Grant => Readers(1, In(m, Exit(true)))
       case Exit(got) => Leave(if got then Reading else Idle)
       case _ => Go(In(m, at)))
    case TryLockWrite =>
      (match at
       case Enter => Take(In(m, Test))
       case Test => Go(In(m, if WriteBlocked(s) then Exit(false) else Grant))
       case Grant => Writers(1, In(m, Exit(true)))
       case Exit(got) => Leave(if got then Writing else Idle)
       case _ => Go(In(m, at)))
  }

  // The points that a method has.
  predicate Proper(pc: PC) {
    pc.In? ==>
      match pc.m
      case LockRead => pc.at.Enter? || pc.at.Test? || pc.at.Asleep? || pc.at.Wake? || pc.at.Grant? || pc.at == Exit(true)
      case LockWrite => !pc.at.Notify? && pc.at != Exit(false)
      case UnlockRead => pc.at.Enter? || pc.at.Begin? || pc.at.Notify? || pc.at == Exit(false)
      case UnlockWrite => pc.at.Enter? || pc.at.Begin? || pc.at.Notify? || pc.at == Exit(false)
      case _ => pc.at.Enter? || pc.at.Test? || pc.at.Grant? || pc.at.Exit?
  }

  function EffectOf(s: State, t: nat, act: Act): Effect
    requires Enabled(s, t, act)
  {
    match act
    case Call(m) => Go(In(m, Enter))
    case Spurious => Go(Woken(s.pcs[t]))
    case Run => Statement(s.pcs[t].m, s.pcs[t].at, s)
  }

  function Apply(s: State, t: nat, e: Effect): State
    requires t < |s.pcs|
  {
    State(s.reader + e.reader, s.writer + e.writer, s.pending + e.pending,
          if e.take then Thread(t) else if e.drop then Nobody else s.mutex,
          (if e.notify then NotifyAll(s.pcs) else s.pcs)[t := e.pc])
  }

  // One statement of thread t.
  function Do(s: State, t: nat, act: Act): State
    requires Enabled(s, t, act)
  {
    Apply(s, t, EffectOf(s, t, act))
  }

  function Init(n: nat): State {
    State(0, 0, 0, Nobody, seq(n, _ => Idle))
  }

  datatype Move = Move(t: nat, act: Act)

  // b is a run of the system: it starts with all n threads idle and makes the moves w.
  predicate IsRun(n: nat, w: seq<Move>, b: seq<State>) {
    && |b| == |w| + 1 && b[0] == Init(n)
    && forall i :: 0 <= i < |w| ==> Enabled(b[i], w[i].t, w[i].act) && b[i + 1] == Do(b[i], w[i].t, w[i].act)
  }

  // ---------- counting threads ----------

  function B(b: bool): nat { if b then 1 else 0 }

  function Count(pcs: seq<PC>, f: PC -> bool): nat {
    if pcs == [] then 0 else B(f(pcs[0])) + Count(pcs[1..], f)
  }

  lemma {:induction false} CountUpdate(pcs: seq<PC>, t: nat, pc: PC, f: PC -> bool)
    requires t < |pcs|
    ensures Count(pcs[t := pc], f) + B(f(pcs[t])) == Count(pcs, f) + B(f(pc))
  {
    if t == 0 {
      assert pcs[t := pc][1..] == pcs[1..];
    } else {
      assert pcs[t := pc][1..] == pcs[1..][t - 1 := pc];
      CountUpdate(pcs[1..], t - 1, pc, f);
    }
  }

  lemma {:induction false} CountSame(pcs: seq<PC>, qcs: seq<PC>, f: PC -> bool)
    requires |pcs| == |qcs| && forall i :: 0 <= i < |pcs| ==> f(pcs[i]) == f(qcs[i])
    ensures Count(pcs, f) == Count(qcs, f)
  {
    if pcs != [] {
      assert forall i :: 0 <= i < |pcs[1..]| ==> pcs[1..][i] == pcs[i + 1] && qcs[1..][i] == qcs[i + 1];
      CountSame(pcs[1..], qcs[1..], f);
    }
  }

  lemma {:induction false} CountNone(pcs: seq<PC>, f: PC -> bool)
    requires forall i :: 0 <= i < |pcs| ==> !f(pcs[i])
    ensures Count(pcs, f) == 0
  {
    if pcs != [] {
      CountNone(pcs[1..], f);
    }
  }

  lemma CountOne(pcs: seq<PC>, t: nat, f: PC -> bool)
    requires t < |pcs| && f(pcs[t]) && !f(Idle)
    ensures Count(pcs, f) >= 1
  {
    CountUpdate(pcs, t, Idle, f);
  }

  lemma CountTwo(pcs: seq<PC>, t: nat, u: nat, f: PC -> bool)
    requires t < |pcs| && u < |pcs| && t != u && f(pcs[t]) && f(pcs[u]) && !f(Idle)
    ensures Count(pcs, f) >= 2
  {
    CountUpdate(pcs, t, Idle, f);
    CountOne(pcs[t := Idle], u, f);
  }

  lemma {:induction false} CountWitness(pcs: seq<PC>, f: PC -> bool) returns (t: nat)
    requires Count(pcs, f) > 0
    ensures t < |pcs| && f(pcs[t])
  {
    if f(pcs[0]) {
      t := 0;
    } else {
      t := CountWitness(pcs[1..], f);
      t := t + 1;
    }
  }

  // Has been granted a read lock (a write lock) and has not given it back yet.
  predicate HasRead(pc: PC) {
    || pc.Reading?
    || (pc.In? && pc.m.UnlockRead? && (pc.at.Enter? || pc.at.Begin?))
    || (pc.In? && (pc.m.LockRead? || pc.m.TryLockRead?) && pc.at == Exit(true))
  }

  predicate HasWrite(pc: PC) {
    || pc.Writing?
    || (pc.In? && pc.m.UnlockWrite? && (pc.at.Enter? || pc.at.Begin?))
    || (pc.In? && (pc.m.LockWrite? || pc.m.TryLockWrite?) && pc.at == Exit(true))
  }

  // Counted in _pending.
  predicate IsPending(pc: PC) {
    pc.In? && pc.m.LockWrite? && (pc.at.Test? || pc.at.Asleep? || pc.at.Wake? || pc.at.Claim?)
  }

  // ---------- the invariant ----------

  // The holder of the mutex is at this point of this method.
  predicate At(s: State, m: Method, at: Point) {
    s.mutex.Thread? && s.mutex.t < |s.pcs| && s.pcs[s.mutex.t] == In(m, at)
  }

  // Only the holder of the mutex is inside a critical section.
  predicate MutexInv(s: State) {
    && (s.mutex.Thread? ==> s.mutex.t < |s.pcs|)
    && forall t :: 0 <= t < |s.pcs| ==>
         Proper(s.pcs[t]) && s.pcs[t] != Failed && (Holds(s.pcs[t]) <==> s.mutex == Thread(t))
  }

  predicate CountInv(s: State) {
    && s.reader == Count(s.pcs, HasRead)
    && s.writer == Count(s.pcs, HasWrite)
    && s.pending == Count(s.pcs, IsPending)
  }

  // At most one writer and never a writer with a reader; and a thread that passed its
  // test is still entitled to the lock.
  predicate ExclusionInv(s: State) {
    && s.writer <= 1 && !(s.writer > 0 && s.reader > 0)
    && (At(s, LockRead, Grant) || At(s, TryLockRead, Grant) ==> !ReadBlocked(s))
    && (At(s, LockWrite, Claim) || At(s, LockWrite, Grant) || At(s, TryLockWrite, Grant) ==> !WriteBlocked(s))
  }

  // Whoever sleeps either still has to, or the holder of the mutex is about to notify it
  // or about to make its condition true again.
  predicate SleepInv(s: State) {
    && (forall t :: 0 <= t < |s.pcs| && s.pcs[t] == In(LockRead, Asleep) ==>
          ReadBlocked(s) || At(s, LockWrite, Grant) || At(s, UnlockWrite, Notify))
    && (forall t :: 0 <= t < |s.pcs| && s.pcs[t] == In(LockWrite, Asleep) ==>
          WriteBlocked(s) || At(s, UnlockWrite, Notify) || (At(s, UnlockRead, Notify) && s.reader == 0))
  }

  predicate Inv(s: State) {
    MutexInv(s) && CountInv(s) && ExclusionInv(s) && SleepInv(s)
  }

  lemma InitInv(n: nat)
    ensures Inv(Init(n))
  {
    CountNone(Init(n).pcs, HasRead);
    CountNone(Init(n).pcs, HasWrite);
    CountNone(Init(n).pcs, IsPending);
  }

  // What all statements have in common: the counters change with the thread's standing,
  // and the mutex with its being inside a critical section.
  predicate Fits(pc: PC, e: Effect) {
    && Proper(e.pc)
    && B(HasRead(e.pc)) == B(HasRead(pc)) + e.reader
    && B(HasWrite(e.pc)) == B(HasWrite(pc)) + e.writer
    && B(IsPending(e.pc)) == B(IsPending(pc)) + e.pending
    && (e.take ==> Locking(pc)) && (e.drop ==> Holds(pc) && !e.take)
    && Holds(e.pc) == (e.take || (Holds(pc) && !e.drop))
  }

  lemma StatementFits(m: Method, at: Point, s: State)
    requires Proper(In(m, at)) && (Locking(In(m, at)) || Holds(In(m, at))) && Statement(m, at, s).pc != Failed
    ensures Fits(In(m, at), Statement(m, at, s))
  {
    hide ReadBlocked, WriteBlocked;
    match m
    case LockRead => match at { case Enter => case Test => case Wake => case Grant => case Exit(_) => case _ => }
    case UnlockRead => match at { case Enter => case Begin => case Notify => case Exit(_) => case _ => }
    case LockWrite =>
      match at {
        case Enter => case Begin => case Test => case Wake => case Claim => case Grant => case Exit(_) => case _ =>
      }
    case UnlockWrite => match at { case Enter => case Begin => case Notify => case Exit(_) => case _ => }
    case TryLockRead => match at { case Enter => case Test => case Grant => case Exit(_) => case _ => }
    case TryLockWrite => match at { case Enter => case Test => case Grant => case Exit(_) => case _ => }
  }

  lemma EffectFits(s: State, t: nat, act: Act)
    requires Enabled(s, t, act) && Proper(s.pcs[t]) && EffectOf(s, t, act).pc != Failed
    ensures Fits(s.pcs[t], EffectOf(s, t, act))
  {
    hide Statement;
    if act == Run {
      StatementFits(s.pcs[t].m, s.pcs[t].at, s);
    }
  }

  lemma OwnCounts(s: State, t: nat)
    requires CountInv(s) && t < |s.pcs|
    ensures HasRead(s.pcs[t]) ==> s.reader > 0
    ensures HasWrite(s.pcs[t]) ==> s.writer > 0
    ensures IsPending(s.pcs[t]) ==> s.pending > 0
    ensures s.reader >= 0 && s.writer >= 0 && s.pending >= 0
  {
    if HasRead(s.pcs[t]) { CountOne(s.pcs, t, HasRead); }
    if HasWrite(s.pcs[t]) { CountOne(s.pcs, t, HasWrite); }
    if IsPending(s.pcs[t]) { CountOne(s.pcs, t, IsPending); }
  }

  // The assertions of unlockRead and unlockWrite hold.
  lemma NeverFails(s: State, t: nat, act: Act)
    requires CountInv(s) && Enabled(s, t, act)
    ensures EffectOf(s, t, act).pc != Failed
  {
    OwnCounts(s, t);
  }

  lemma MutexApply(s: State, t: nat, e: Effect)
    requires MutexInv(s) && t < |s.pcs| && Fits(s.pcs[t], e) && e.pc != Failed
    requires Locking(s.pcs[t]) ==> s.mutex.Nobody?
    ensures MutexInv(Apply(s, t, e))
  {
    hide Holds, Proper, Locking, HasRead, HasWrite, IsPending;
    var s' := Apply(s, t, e);
    forall u | 0 <= u < |s.pcs| && u != t
      ensures Proper(s'.pcs[u]) && s'.pcs[u] != Failed && (Holds(s'.pcs[u]) <==> s'.mutex == Thread(u))
    {
      WokenKeeps(s.pcs[u]);
      assert s'.pcs[u] == s.pcs[u] || s'.pcs[u] == Woken(s.pcs[u]);
    }
  }

  lemma WokenKeeps(pc: PC)
    ensures Holds(Woken(pc)) == Holds(pc) && (Woken(pc) == Failed <==> pc == Failed)
    ensures Proper(pc) ==> Proper(Woken(pc))
  {
  }

  lemma MutexStep(s: State, t: nat, act: Act)
    requires MutexInv(s) && CountInv(s) && Enabled(s, t, act)
    ensures MutexInv(Do(s, t, act))
  {
    hide EffectOf, CountInv, Apply, Proper;
    NeverFails(s, t, act);
    EffectFits(s, t, act);
    MutexApply(s, t, EffectOf(s, t, act));
  }

  lemma NotifyCounts(pcs: seq<PC>)
    ensures Count(NotifyAll(pcs), HasRead) == Count(pcs, HasRead)
    ensures Count(NotifyAll(pcs), HasWrite) == Count(pcs, HasWrite)
    ensures Count(NotifyAll(pcs), IsPending) == Count(pcs, IsPending)
  {
    CountSame(pcs, NotifyAll(pcs), HasRead);
    CountSame(pcs, NotifyAll(pcs), HasWrite);
    CountSame(pcs, NotifyAll(pcs), IsPending);
  }

  lemma CountStep(s: State, t: nat, act: Act)
    requires MutexInv(s) && CountInv(s) && Enabled(s, t, act)
    ensures CountInv(Do(s, t, act))
  {
    hide Statement, HasRead, HasWrite, IsPending, Proper;
    var e := EffectOf(s, t, act);
    NeverFails(s, t, act);
    EffectFits(s, t, act);
    var mid := if e.notify then NotifyAll(s.pcs) else s.pcs;
    NotifyCounts(s.pcs);
    if e.notify {
      NotifyOnlyInside(s, t, act);
    }
    CountUpdate(mid, t, e.pc, HasRead);
    CountUpdate(mid, t, e.pc, HasWrite);
    CountUpdate(mid, t, e.pc, IsPending);
  }

  lemma NotifyOnlyInside(s: State, t: nat, act: Act)
    requires Enabled(s, t, act) && EffectOf(s, t, act).notify
    ensures Holds(s.pcs[t])
  {
  }

  lemma ExclusionStep(s: State, t: nat, act: Act)
    requires Inv(s) && Enabled(s, t, act)
    ensures ExclusionInv(Do(s, t, act))
  {
    hide CountInv, SleepInv, Proper;
    OwnCounts(s, t);
    if act == Run {
      match s.pcs[t].m
      case LockRead => case UnlockRead => case LockWrite =>
      case UnlockWrite => case TryLockRead => case TryLockWrite =>
    }
  }

  // A thread asleep after a step was asleep before, and not notified, or just went to sleep.
  lemma SleeperBefore(s: State, t: nat, act: Act, u: nat)
    requires Enabled(s, t, act) && u < |s.pcs| && Do(s, t, act).pcs[u].In? && Do(s, t, act).pcs[u].at.Asleep?
    ensures u != t ==> s.pcs[u] == Do(s, t, act).pcs[u] && !EffectOf(s, t, act).notify
    ensures u == t ==> act == Run && s.pcs[t].at.Test? && !EffectOf(s, t, act).take
  {
  }

  lemma ReaderSleeps(s: State, t: nat, act: Act, u: nat)
    requires Inv(s) && Enabled(s, t, act) && u < |s.pcs| && Do(s, t, act).pcs[u] == In(LockRead, Asleep)
    ensures var s' := Do(s, t, act); ReadBlocked(s') || At(s', LockWrite, Grant) || At(s', UnlockWrite, Notify)
  {
    hide NotifyAll, Count;
    OwnCounts(s, t);
    SleeperBefore(s, t, act, u);
  }

  lemma WriterSleeps(s: State, t: nat, act: Act, u: nat)
    requires Inv(s) && Enabled(s, t, act) && u < |s.pcs| && Do(s, t, act).pcs[u] == In(LockWrite, Asleep)
    ensures var s' := Do(s, t, act);
            WriteBlocked(s') || At(s', UnlockWrite, Notify) || (At(s', UnlockRead, Notify) && s'.reader == 0)
  {
    hide NotifyAll, Count;
    OwnCounts(s, t);
    SleeperBefore(s, t, act, u);
  }

  lemma SleepStep(s: State, t: nat, act: Act)
    requires Inv(s) && Enabled(s, t, act)
    ensures SleepInv(Do(s, t, act))
  {
    hide EffectOf, MutexInv, CountInv, ExclusionInv;
    var s' := Do(s, t, act);
    forall u | 0 <= u < |s.pcs| && s'.pcs[u] == In(LockRead, Asleep)
      ensures ReadBlocked(s') || At(s', LockWrite, Grant) || At(s', UnlockWrite, Notify)
    {
      ReaderSleeps(s, t, act, u);
    }
    forall u | 0 <= u < |s.pcs| && s'.pcs[u] == In(LockWrite, Asleep)
      ensures WriteBlocked(s') || At(s', UnlockWrite, Notify) || (At(s', UnlockRead, Notify) && s'.reader == 0)
    {
      WriterSleeps(s, t, act, u);
    }
  }

  lemma {:induction false} RunInv(n: nat, w: seq<Move>, b: seq<State>, i: nat)
    requires IsRun(n, w, b) && i < |b|
    ensures Inv(b[i])
    decreases i
  {
    hide MutexInv, CountInv, ExclusionInv, SleepInv;
    if i == 0 {
      InitInv(n);
    } else {
      RunInv(n, w, b, i - 1);
      var s, v := b[i - 1], w[i - 1];
      MutexStep(s, v.t, v.act);
      CountStep(s, v.t, v.act);
      ExclusionStep(s, v.t, v.act);
      SleepStep(s, v.t, v.act);
    }
  }

  // ---------- what the lock guarantees, in every state of every run ----------

  lemma Exclusion(n: nat, w: seq<Move>, b: seq<State>, i: nat, t: nat, u: nat)
    requires IsRun(n, w, b) && i < |b| && t < |b[i].pcs| && u < |b[i].pcs|
    ensures b[i].pcs[t] != Failed
    ensures HasWrite(b[i].pcs[t]) && t != u ==> !HasWrite(b[i].pcs[u]) && !HasRead(b[i].pcs[u])
    ensures Holds(b[i].pcs[t]) && t != u ==> !Holds(b[i].pcs[u])
  {
    var s := b[i];
    RunInv(n, w, b, i);
    if HasWrite(s.pcs[t]) && t != u {
      OwnCounts(s, t);
      OwnCounts(s, u);
      if HasWrite(s.pcs[u]) {
        CountTwo(s.pcs, t, u, HasWrite);
      }
    }
  }

  // The counters are exact: so many threads have a read lock, a write lock, or wait to write.
  lemma ExactCounters(n: nat, w: seq<Move>, b: seq<State>, i: nat)
    requires IsRun(n, w, b) && i < |b|
    ensures b[i].reader == Count(b[i].pcs, HasRead)
    ensures b[i].writer == Count(b[i].pcs, HasWrite) <= 1
    ensures b[i].pending == Count(b[i].pcs, IsPending)
  {
    RunInv(n, w, b, i);
  }

  // No lost wakeup: with the mutex free, a thread that sleeps unnotified still has to wait.
  lemma NoLostWakeup(n: nat, w: seq<Move>, b: seq<State>, i: nat, t: nat)
    requires IsRun(n, w, b) && i < |b| && t < |b[i].pcs| && b[i].mutex.Nobody?
    ensures b[i].pcs[t] == In(LockRead, Asleep) ==> ReadBlocked(b[i])
    ensures b[i].pcs[t] == In(LockWrite, Asleep) ==> WriteBlocked(b[i])
  {
    RunInv(n, w, b, i);
  }

  // Thread t running alone for k statements (it stops where it cannot go on).
  function Solo(s: State, t: nat, k: nat): (r: State)
    ensures |r.pcs| == |s.pcs|
    decreases k
  {
    if k == 0 || !Enabled(s, t, Run) then s else Solo(Do(s, t, Run), t, k - 1)
  }

  // Whoever holds the mutex can go on until it has released it.
  lemma HolderReleases(n: nat, w: seq<Move>, b: seq<State>, i: nat)
    requires IsRun(n, w, b) && i < |b| && b[i].mutex.Thread?
    ensures Solo(b[i], b[i].mutex.t, 5).mutex.Nobody?
  {
    hide CountInv, SleepInv, NotifyAll;
    RunInv(n, w, b, i);
    var s, t := b[i], b[i].mutex.t;
    assert Proper(s.pcs[t]) && Holds(s.pcs[t]);
    OwnCounts(s, t) by { assert Inv(s); }
    ReleasesFrom(s, t);
  }

  // How many statements a method has left in its critical section.
  function Left(pc: PC): nat {
    if !pc.In? then 0
    else match pc.at
      case Begin => if pc.m.LockWrite? then 5 else 3
      case Test => 4
      case Claim => 3
      case Grant => 2
      case Notify => 2
      case Exit(_) => 1
      case _ => 0
  }

  lemma ReleasesFrom(s: State, t: nat)
    requires MutexInv(s) && CountInv(s) && s.mutex == Thread(t)
    ensures Left(s.pcs[t]) <= 5 && Solo(s, t, 5).mutex.Nobody?
  {
    ReleasesIn(s, t, 5);
  }

  lemma {:induction false} ReleasesIn(s: State, t: nat, k: nat)
    requires MutexInv(s) && CountInv(s) && (s.mutex == Thread(t) || (s.mutex.Nobody? && t < |s.pcs| && !Locking(s.pcs[t])))
    requires Left(s.pcs[t]) <= k
    ensures Solo(s, t, k).mutex.Nobody?
    decreases k
  {
    if s.mutex == Thread(t) {
      MutexStep(s, t, Run);
      CountStep(s, t, Run);
      NeverFails(s, t, Run);
      LeftShrinks(s, t);
      ReleasesIn(Do(s, t, Run), t, k - 1);
    }
  }

  lemma LeftShrinks(s: State, t: nat)
    requires t < |s.pcs| && Proper(s.pcs[t]) && Holds(s.pcs[t]) && EffectOf(s, t, Run).pc != Failed
    ensures var e := EffectOf(s, t, Run);
            Left(e.pc) < Left(s.pcs[t]) && !e.take && !Locking(e.pc) && (Holds(e.pc) <==> !e.drop)
  {
    StatementShrinks(s.pcs[t].m, s.pcs[t].at, s);
    StatementFits(s.pcs[t].m, s.pcs[t].at, s);
  }

  lemma StatementShrinks(m: Method, at: Point, s: State)
    requires Proper(In(m, at)) && Holds(In(m, at)) && Statement(m, at, s).pc != Failed
    ensures var e := Statement(m, at, s);
            Left(e.pc) < Left(In(m, at)) && !e.take && !Locking(e.pc)
  {
    hide ReadBlocked, WriteBlocked;
    match m
    case LockRead => match at { case Test => case Grant => case Exit(_) => case _ => }
    case UnlockRead => match at { case Begin => case Notify => case Exit(_) => case _ => }
    case LockWrite => match at { case Begin => case Test => case Claim => case Grant => case Exit(_) => case _ => }
    case UnlockWrite => match at { case Begin => case Notify => case Exit(_) => case _ => }
    case TryLockRead => match at { case Test => case Grant => case Exit(_) => case _ => }
    case TryLockWrite => match at { case Test => case Grant => case Exit(_) => case _ => }
  }

  // A reader that nothing blocks, or a writer, gets its lock by going on alone.
  lemma ReaderGets(s: State, t: nat)
    requires t < |s.pcs| && s.mutex.Nobody? && !ReadBlocked(s)
    requires s.pcs[t] == In(LockRead, Enter) || s.pcs[t] == In(LockRead, Wake)
    ensures Solo(s, t, 4).pcs[t] == Reading
  {
    var s1 := Do(s, t, Run);
    var s2 := Do(s1, t, Run);
    var s3 := Do(s2, t, Run);
    assert s3.pcs[t] == In(LockRead, Exit(true)) && Enabled(s3, t, Run);
    assert Solo(s3, t, 1) == Do(s3, t, Run);
    assert Solo(s2, t, 2) == Solo(s3, t, 1);
  }

  lemma WriterGets(s: State, t: nat)
    requires t < |s.pcs| && s.mutex.Nobody? && !WriteBlocked(s)
    requires s.pcs[t] == In(LockWrite, Enter) || s.pcs[t] == In(LockWrite, Wake)
    ensures Solo(s, t, 6).pcs[t] == Writing
  {
    var s1 := Do(s, t, Run);
    var s2 := if s.pcs[t].at.Enter? then Do(s1, t, Run) else s1;
    assert s2.pcs[t] == In(LockWrite, Test) && s2.mutex == Thread(t) && !WriteBlocked(s2);
    WriterGetsFrom(s2, t, if s.pcs[t].at.Enter? then 4 else 5);
  }

  lemma WriterGetsFrom(s: State, t: nat, k: nat)
    requires t < |s.pcs| && s.pcs[t] == In(LockWrite, Test) && s.mutex == Thread(t) && !WriteBlocked(s) && k >= 4
    ensures Solo(s, t, k).pcs[t] == Writing
  {
    var s1 := Do(s, t, Run);
    var s2 := Do(s1, t, Run);
    var s3 := Do(s2, t, Run);
    var s4 := Do(s3, t, Run);
    assert s3.pcs[t] == In(LockWrite, Exit(true)) && s4.pcs[t] == Writing;
    assert Solo(s4, t, k - 4) == s4;
    assert Solo(s3, t, k - 3) == s4;
    assert Solo(s2, t, k - 2) == s4;
  }

  // The lock never gets stuck: if nobody has it and somebody is inside lockRead or
  // lockWrite, then some thread that is awake gets it by going on.
  lemma NoStuckLock(n: nat, w: seq<Move>, b: seq<State>, i: nat, t: nat) returns (u: nat)
    requires IsRun(n, w, b) && i < |b| && b[i].mutex.Nobody? && b[i].reader == 0 && b[i].writer == 0
    requires t < |b[i].pcs| && b[i].pcs[t].In? && (b[i].pcs[t].m.LockRead? || b[i].pcs[t].m.LockWrite?)
    ensures u < |b[i].pcs| && Locking(b[i].pcs[u])
    ensures var pc := Solo(b[i], u, if b[i].pcs[u].m.LockRead? then 4 else 6).pcs[u];
            pc == if b[i].pcs[u].m.LockRead? then Reading else Writing
    ensures b[i].pcs[u].m.LockRead? || b[i].pcs[u].m.LockWrite?
  {
    hide Solo, EffectOf, Apply;
    RunInv(n, w, b, i);
    var s := b[i];
    assert !Holds(s.pcs[t]);
    if s.pending > 0 {
      u := CountWitness(s.pcs, IsPending);
      assert !Holds(s.pcs[u]);
      WriterGets(s, u);
    } else {
      u := t;
      OwnCounts(s, t);
      if s.pcs[t].m.LockRead? {
        ReaderGets(s, t);
      } else {
        WriterGets(s, t);
      }
    }
  }

  // ---------- writer preference over whole runs ----------

  // From ++_pending until its own ++_writer.
  predicate Waiting(pc: PC) { IsPending(pc) || pc == In(LockWrite, Grant) }

  lemma PreferenceStep(s: State, t: nat, act: Act, u: nat, v: nat)
    requires Inv(s) && Enabled(s, t, act) && u < |s.pcs| && v < |s.pcs| && Waiting(s.pcs[u])
    ensures HasRead(Do(s, t, act).pcs[v]) ==> HasRead(s.pcs[v])
    ensures Do(s, t, act).reader <= s.reader
  {
    hide Count, SleepInv;
    OwnCounts(s, u);
    GrantsRead(s, t, act);
    if act == Run && (s.pcs[t] == In(LockRead, Grant) || s.pcs[t] == In(TryLockRead, Grant)) {
      assert false;
    }
  }

  // A thread comes to have a read lock only by ++_reader, in lockRead or tryLockRead.
  lemma GrantsRead(s: State, t: nat, act: Act)
    requires Enabled(s, t, act) && Proper(s.pcs[t])
    ensures var e := EffectOf(s, t, act);
            (HasRead(e.pc) && !HasRead(s.pcs[t])) || e.reader > 0 ==>
              act == Run && (s.pcs[t] == In(LockRead, Grant) || s.pcs[t] == In(TryLockRead, Grant))
  {
  }

  predicate WaitsToWrite(s: State, u: nat) { u < |s.pcs| && Waiting(s.pcs[u]) }
  predicate HasReadLock(s: State, v: nat) { v < |s.pcs| && HasRead(s.pcs[v]) }

  // While thread u waits to write, no thread acquires a read lock: whoever has one at the
  // end of the window had it all along, and the number of readers only falls.
  lemma {:induction false} WriterPreference(n: nat, w: seq<Move>, b: seq<State>, i: nat, j: nat, u: nat, v: nat)
    requires IsRun(n, w, b) && i <= j < |b|
    requires forall k :: i <= k <= j ==> WaitsToWrite(b[k], u)
    ensures b[j].reader <= b[i].reader
    ensures HasReadLock(b[j], v) ==> forall k :: i <= k <= j ==> HasReadLock(b[k], v)
    decreases j
  {
    hide Inv, Waiting, HasRead, Init, EffectOf;
    if i < j {
      WriterPreference(n, w, b, i, j - 1, u, v);
      RunInv(n, w, b, j - 1);
      if HasReadLock(b[j], v) {
        PreferenceStep(b[j - 1], w[j - 1].t, w[j - 1].act, u, v);
      } else {
        PreferenceStep(b[j - 1], w[j - 1].t, w[j - 1].act, u, u);
      }
    }
  }

  // The window closes only with the writer's own ++_writer.
  lemma WindowCloses(s: State, t: nat, act: Act, u: nat)
    requires Inv(s) && Enabled(s, t, act) && u < |s.pcs| && Waiting(s.pcs[u]) && !Waiting(Do(s, t, act).pcs[u])
    ensures t == u && act == Run && Do(s, t, act).pcs[u] == In(LockWrite, Exit(true))
    ensures Do(s, t, act).writer == s.writer + 1 == 1
  {
    hide Count, SleepInv;
    OwnCounts(s, u);
  }

  // ---------- the lock as an object ----------

  class ReadWriteLock {
    var reader: int
    var writer: int
    var pending: int
    var mutex: Owner
    var pcs: seq<PC>       // where each thread is

    ghost function View(): State
      reads this
    {
      State(reader, writer, pending, mutex, pcs)
    }

    constructor (n: nat)
      ensures View() == Init(n)
    {
      reader, writer, pending, mutex := 0, 0, 0, Nobody;
      pcs := seq(n, _ => Idle);
    }

    // Thread t executes its next statement.
    method Execute(t: nat)
      requires Enabled(View(), t, Run)
      modifies this
      ensures View() == Do(old(View()), t, Run)
    {
      var m, at := pcs[t].m, pcs[t].at;
      var next := In(m, at);
      match at {
        case Enter =>
          mutex := Thread(t);
          next := In(m, if m.LockRead? || m.TryLockRead? || m.TryLockWrite? then Test else Begin);
        case Begin =>
          match m {
            case LockWrite =>
              pending := pending + 1;
              next := In(m, Test);
            case UnlockRead =>
              if reader > 0 {
                reader := reader - 1;
                next := In(m, Notify);
              } else {
                next := Failed;
              }
            case UnlockWrite =>
              if writer > 0 {
                writer := writer - 1;
                next := In(m, Notify);
              } else {
                next := Failed;
              }
            case _ =>
          }
        case Test =>
          match m {
            case LockRead =>
              if writer > 0 || pending > 0 {
                mutex := Nobody;
                next := In(m, Asleep);
              } else {
                next := In(m, Grant);
              }
            case LockWrite =>
              if writer > 0 || reader > 0 {
                mutex := Nobody;
                next := In(m, Asleep);
              } else {
                next := In(m, Claim);
              }
            case TryLockRead => next := In(m, if writer > 0 || pending > 0 then Exit(false) else Grant);
            case TryLockWrite => next := In(m, if writer > 0 || reader > 0 then Exit(false) else Grant);
            case _ =>
          }
        case Wake =>
          if m.LockRead? || m.LockWrite? {
            mutex := Thread(t);
            next := In(m, Test);
          }
        case Claim =>
          if m.LockWrite? {
            pending := pending - 1;
            next := In(m, Grant);
          }
        case Grant =>
          if m.LockRead? || m.TryLockRead? {
            reader := reader + 1;
            next := In(m, Exit(true));
          } else if m.LockWrite? || m.TryLockWrite? {
            writer := writer + 1;
            next := In(m, Exit(true));
          }
        case Notify =>
          if m.UnlockWrite? || (m.UnlockRead? && reader == 0) {
            pcs := NotifyAll(pcs);
          }
          if m.UnlockWrite? || m.UnlockRead? {
            next := In(m, Exit(false));
          }
        case Exit(got) =>
          mutex := Nobody;
          next := match m
            case LockRead => Reading
            case LockWrite => Writing
            case TryLockRead => if got then Reading else Idle
            case TryLockWrite => if got then Writing else Idle
            case _ => Idle;
        case Asleep =>
      }
      pcs := pcs[t := next];
    }
  }
}
