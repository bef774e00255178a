/** What each method of the read/write lock amounts to: alone, one atomic step; among other
    threads, a try method's answer is decided when it takes the mutex. */
module ReadWriteLockMethods {
  import opened ReadWriteLockModel

  // ---------- a method alone ----------

  function With(s: State, reader: int, writer: int, pending: int, pcs: seq<PC>): State {
    State(s.reader + reader, s.writer + writer, s.pending + pending, Nobody, pcs)
  }

  // Every sleeper other than t has been woken.
  predicate AllAwake(before: seq<PC>, after: seq<PC>, t: nat) {
    && |after| == |before|
    && forall u :: 0 <= u < |before| && u != t ==>
         after[u] == if before[u].In? && before[u].at == Asleep then In(before[u].m, Wake) else before[u]
  }

  lemma SoloStep(s: State, t: nat, k: nat)
    requires k > 0 && Enabled(s, t, Run)
    ensures Solo(s, t, k) == Solo(Do(s, t, Run), t, k - 1)
  {
  }

  lemma SoloStops(s: State, t: nat, k: nat)
    requires t < |s.pcs| && (s.pcs[t] == Idle || s.pcs[t] == Reading || s.pcs[t] == Writing || (s.pcs[t].In? && s.pcs[t].at == Asleep))
    ensures Solo(s, t, k) == s
  {
  }

  // tryLockRead takes a read lock if nobody writes or waits to, and else changes nothing.
  lemma TryReadAlone(s: State, t: nat)
    requires t < |s.pcs| && s.mutex == Nobody && s.pcs[t] == In(TryLockRead, Enter)
    ensures Solo(s, t, 6)
         == if s.writer <= 0 && s.pending <= 0 then With(s, 1, 0, 0, s.pcs[t := Reading]) else With(s, 0, 0, 0, s.pcs[t := Idle])
  {
    hide Solo;
    var s1 := Do(s, t, Run);
    var s2 := Do(s1, t, Run);
    var s3 := Do(s2, t, Run);
    SoloStep(s, t, 6);
    SoloStep(s1, t, 5);
    SoloStep(s2, t, 4);
    if s.writer <= 0 && s.pending <= 0 {
      var s4 := Do(s3, t, Run);
      SoloStep(s3, t, 3);
      assert s4 == With(s, 1, 0, 0, s.pcs[t := Reading]);
      SoloStops(s4, t, 2);
    } else {
      assert s3 == With(s, 0, 0, 0, s.pcs[t := Idle]);
      SoloStops(s3, t, 3);
    }
  }

  // tryLockWrite takes the write lock if nobody reads or writes, and else changes nothing.
  lemma TryWriteAlone(s: State, t: nat)
    requires t < |s.pcs| && s.mutex == Nobody && s.pcs[t] == In(TryLockWrite, Enter)
    ensures Solo(s, t, 6)
         == if s.writer <= 0 && s.reader <= 0 then With(s, 0, 1, 0, s.pcs[t := Writing]) else With(s, 0, 0, 0, s.pcs[t := Idle])
  {
    hide Solo;
    var s1 := Do(s, t, Run);
    var s2 := Do(s1, t, Run);
    var s3 := Do(s2, t, Run);
    SoloStep(s, t, 6);
    SoloStep(s1, t, 5);
    SoloStep(s2, t, 4);
    if s.writer <= 0 && s.reader <= 0 {
      var s4 := Do(s3, t, Run);
      SoloStep(s3, t, 3);
      assert s4 == With(s, 0, 1, 0, s.pcs[t := Writing]);
      SoloStops(s4, t, 2);
    } else {
      assert s3 == With(s, 0, 0, 0, s.pcs[t := Idle]);
      SoloStops(s3, t, 3);
    }
  }

  // lockRead, from its call or after a wakeup: a read lock, or asleep.
  lemma LockReadAlone(s: State, t: nat)
    requires t < |s.pcs| && s.mutex == Nobody && (s.pcs[t] == In(LockRead, Enter) || s.pcs[t] == In(LockRead, Wake))
    ensures Solo(s, t, 6)
         == if s.writer <= 0 && s.pending <= 0 then With(s, 1, 0, 0, s.pcs[t := Reading])
            else With(s, 0, 0, 0, s.pcs[t := In(LockRead, Asleep)])
  {
    hide Solo;
    var s1 := Do(s, t, Run);
    var s2 := Do(s1, t, Run);
    SoloStep(s, t, 6);
    SoloStep(s1, t, 5);
    if s.writer <= 0 && s.pending <= 0 {
      var s3 := Do(s2, t, Run);
      var s4 := Do(s3, t, Run);
      SoloStep(s2, t, 4);
      SoloStep(s3, t, 3);
      assert s4 == With(s, 1, 0, 0, s.pcs[t := Reading]);
      SoloStops(s4, t, 2);
    } else {
      assert s2 == With(s, 0, 0, 0, s.pcs[t := In(LockRead, Asleep)]);
      SoloStops(s2, t, 4);
    }
  }

  // lockWrite from its call: the write lock, or counted as pending and asleep.
  lemma LockWriteAlone(s: State, t: nat)
    requires t < |s.pcs| && s.mutex == Nobody && s.pcs[t] == In(LockWrite, Enter)
    ensures Solo(s, t, 6)
         == if s.writer <= 0 && s.reader <= 0 then With(s, 0, 1, 0, s.pcs[t := Writing])
            else With(s, 0, 0, 1, s.pcs[t := In(LockWrite, Asleep)])
  {
    hide Solo;
    var s1 := Do(s, t, Run);
    var s2 := Do(s1, t, Run);
    var s3 := Do(s2, t, Run);
    SoloStep(s, t, 6);
    SoloStep(s1, t, 5);
    SoloStep(s2, t, 4);
    if s.writer <= 0 && s.reader <= 0 {
      WriteGranted(s, s3, t);
    } else {
      assert s3 == With(s, 0, 0, 1, s.pcs[t := In(LockWrite, Asleep)]);
      SoloStops(s3, t, 3);
    }
  }

  // ... and after a wakeup: the write lock, no longer pending, or asleep again.
  lemma LockWriteWoken(s: State, t: nat)
    requires t < |s.pcs| && s.mutex == Nobody && s.pcs[t] == In(LockWrite, Wake)
    ensures Solo(s, t, 6)
         == if s.writer <= 0 && s.reader <= 0 then With(s, 0, 1, -1, s.pcs[t := Writing])
            else With(s, 0, 0, 0, s.pcs[t := In(LockWrite, Asleep)])
  {
    hide Solo;
    var s1 := Do(s, t, Run);
    var s2 := Do(s1, t, Run);
    SoloStep(s, t, 6);
    SoloStep(s1, t, 5);
    if s.writer <= 0 && s.reader <= 0 {
      var e := With(s, 0, 1, -1, s.pcs[t := Writing]);
      WriteGranted(s.(pending := s.pending - 1), s2, t);
      assert Solo(s2, t, 3) == e;
      SoloMore(s2, t, 3, 4);
    } else {
      assert s2 == With(s, 0, 0, 0, s.pcs[t := In(LockWrite, Asleep)]);
      SoloStops(s2, t, 4);
    }
  }

  // Once the thread has stopped, more statements make no difference.
  lemma {:induction false} SoloMore(s: State, t: nat, k: nat, n: nat)
    requires k <= n && !Enabled(Solo(s, t, k), t, Run)
    ensures Solo(s, t, n) == Solo(s, t, k)
    decreases k
  {
    if k > 0 && Enabled(s, t, Run) {
      SoloMore(Do(s, t, Run), t, k - 1, n - 1);
    }
  }

  lemma WriteGranted(s: State, s3: State, t: nat)
    requires t < |s.pcs| && s3 == State(s.reader, s.writer, s.pending + 1, Thread(t), s.pcs[t := In(LockWrite, Claim)])
    ensures Solo(s3, t, 3) == With(s, 0, 1, 0, s.pcs[t := Writing])
  {
    hide Solo;
    var s4 := Do(s3, t, Run);
    var s5 := Do(s4, t, Run);
    var s6 := Do(s5, t, Run);
    SoloStep(s3, t, 3);
    SoloStep(s4, t, 2);
    SoloStep(s5, t, 1);
    assert s6 == With(s, 0, 1, 0, s.pcs[t := Writing]);
    SoloStops(s6, t, 0);
  }

  // unlockRead gives one read lock back, and wakes the sleepers only if it was the last.
  lemma UnlockReadAlone(s: State, t: nat)
    requires t < |s.pcs| && s.mutex == Nobody && s.pcs[t] == In(UnlockRead, Enter) && s.reader > 0
    ensures var e := Solo(s, t, 6);
            && e == With(s, -1, 0, 0, e.pcs) && t < |e.pcs| && e.pcs[t] == Idle
            && if s.reader == 1 then AllAwake(s.pcs, e.pcs, t) else e.pcs == s.pcs[t := Idle]
  {
    hide Solo;
    var s1 := Do(s, t, Run);
    var s2 := Do(s1, t, Run);
    var s3 := Do(s2, t, Run);
    var s4 := Do(s3, t, Run);
    SoloStep(s, t, 6);
    SoloStep(s1, t, 5);
    SoloStep(s2, t, 4);
    SoloStep(s3, t, 3);
    SoloStops(s4, t, 2);
    if s.reader == 1 {
      NotifyWakes(s.pcs, t, In(UnlockRead, Notify), In(UnlockRead, Exit(false)));
      assert s4.pcs == NotifyAll(s.pcs[t := In(UnlockRead, Notify)])[t := In(UnlockRead, Exit(false))][t := Idle];
    }
  }

  lemma NotifyWakes(pcs: seq<PC>, t: nat, x: PC, y: PC)
    requires t < |pcs|
    ensures AllAwake(pcs, NotifyAll(pcs[t := x])[t := y][t := Idle], t)
  {
    var after := NotifyAll(pcs[t := x])[t := y][t := Idle];
    assert |after| == |pcs|;
    forall u | 0 <= u < |pcs| && u != t ensures after[u] == Woken(pcs[u]) {
    }
  }

  // unlockWrite gives the write lock back and wakes all sleepers.
  lemma UnlockWriteAlone(s: State, t: nat)
    requires t < |s.pcs| && s.mutex == Nobody && s.pcs[t] == In(UnlockWrite, Enter) && s.writer > 0
    ensures var e := Solo(s, t, 6);
            e == With(s, 0, -1, 0, e.pcs) && t < |e.pcs| && e.pcs[t] == Idle && AllAwake(s.pcs, e.pcs, t)
  {
    hide Solo;
    var s1 := Do(s, t, Run);
    var s2 := Do(s1, t, Run);
    var s3 := Do(s2, t, Run);
    var s4 := Do(s3, t, Run);
    SoloStep(s, t, 6);
    SoloStep(s1, t, 5);
    SoloStep(s2, t, 4);
    SoloStep(s3, t, 3);
    SoloStops(s4, t, 2);
    NotifyWakes(s.pcs, t, In(UnlockWrite, Notify), In(UnlockWrite, Exit(false)));
    assert s4.pcs == NotifyAll(s.pcs[t := In(UnlockWrite, Notify)])[t := In(UnlockWrite, Exit(false))][t := Idle];
  }

  // ---------- a try method among other threads ----------

  predicate IsTry(m: Method) { m.TryLockRead? || m.TryLockWrite? }

  lemma TryNeverSleeps(n: nat, w: seq<Move>, b: seq<State>, i: nat, t: nat)
    requires IsRun(n, w, b) && i < |b| && t < |b[i].pcs| && b[i].pcs[t].In? && IsTry(b[i].pcs[t].m)
    ensures b[i].pcs[t].at != Asleep && b[i].pcs[t].at != Wake
  {
    RunInv(n, w, b, i);
  }

  // The lock is free for the try method m.
  predicate Free(s: State, m: Method) {
    s.writer <= 0 && (if m.TryLockRead? then s.pending else s.reader) <= 0
  }

  // Thread t, inside m, has not tested yet, or has tested and found `free`.
  predicate Decided(s: State, t: nat, m: Method, free: bool) {
    && t < |s.pcs| && s.mutex == Thread(t) && s.pcs[t].In? && s.pcs[t].m == m
    && match s.pcs[t].at
       case Test => Free(s, m) == free
       case Grant => free
       case Exit(got) => got == free
       case _ => false
  }

  predicate Ended(pc: PC, m: Method, free: bool) {
    pc == if !free then Idle else if m.TryLockRead? then Reading else Writing
  }

  lemma TryStep(s: State, u: nat, act: Act, t: nat, m: Method, free: bool)
    requires MutexInv(s) && Enabled(s, u, act) && IsTry(m) && Decided(s, t, m, free)
    ensures var s' := Do(s, u, act);
            Decided(s', t, m, free) || (u == t && s.pcs[t].at.Exit? && t < |s'.pcs| && Ended(s'.pcs[t], m, free))
  {
    hide NotifyAll;
    assert Holds(s.pcs[t]);
    if u != t {
      OthersWait(s, u, act, t);
    }
  }

  // While t holds the mutex, another thread changes neither the counters nor t.
  lemma OthersWait(s: State, u: nat, act: Act, t: nat)
    requires MutexInv(s) && Enabled(s, u, act) && s.mutex == Thread(t) && t < |s.pcs| && u != t
    ensures var s' := Do(s, u, act);
            && s'.reader == s.reader && s'.writer == s.writer && s'.pending == s.pending
            && s'.mutex == s.mutex && |s'.pcs| == |s.pcs| && s'.pcs[t] == s.pcs[t]
  {
    hide Statement, Proper;
    assert !Holds(s.pcs[u]);
  }

  // In any run, from taking the mutex at i until it leaves at j, a try method is decided by
  // the counters at i, whatever the other threads do meanwhile.
  lemma {:induction false} TryDecides(n: nat, w: seq<Move>, b: seq<State>, i: nat, j: nat, t: nat, m: Method)
    requires IsRun(n, w, b) && i <= j < |b| && IsTry(m)
    requires t < |b[i].pcs| && b[i].pcs[t] == In(m, Test)
    requires forall k :: i < k < j ==> t < |b[k].pcs| && b[k].pcs[t].In?
    ensures t < |b[j].pcs|
    ensures var free := Free(b[i], m);
            if b[j].pcs[t].In? then Decided(b[j], t, m, free) else Ended(b[j].pcs[t], m, free)
    decreases j
  {
    hide Decided, Enabled, Do;
    RunInv(n, w, b, i);
    if i == j {
      StartsDecided(b[i], t, m);
    } else {
      TryDecides(n, w, b, i, j - 1, t, m);
      RunInv(n, w, b, j - 1);
      TryStep(b[j - 1], w[j - 1].t, w[j - 1].act, t, m, Free(b[i], m));
      DecidedIn(b[j], t, m, Free(b[i], m));
    }
  }

  lemma StartsDecided(s: State, t: nat, m: Method)
    requires MutexInv(s) && t < |s.pcs| && s.pcs[t] == In(m, Test)
    ensures Decided(s, t, m, Free(s, m))
  {
    assert Holds(s.pcs[t]);
  }

  lemma DecidedIn(s: State, t: nat, m: Method, free: bool)
    ensures Decided(s, t, m, free) ==> t < |s.pcs| && s.pcs[t].In?
  {
  }
}
