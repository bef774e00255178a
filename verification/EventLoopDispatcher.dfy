/** The cross-thread event-loop dispatcher: any number of producer threads and the loop
    thread on which the dispatcher was made, one statement at a time.

    The event-loop signal is a flag: notify sets it, and the loop clears it when it
    starts the callback, so notifications made before that coalesce. */
module EventLoopDispatcherModel {

  // A producer in operator(): lock; m_signal = ...; push; unlock; notify.
  datatype Producer<X> = PIdle | PLock(x: X) | PSignal(x: X) | PPush(x: X) | PUnlock | PNotify

  // The loop in Callback::operator(): lock; while (!empty) { call front; pop }; reset; unlock.
  datatype Loop = LIdle | LLock | LTest | LCall | LPop | LReset | LUnlock

  datatype Owner = Nobody | ByProducer(p: nat) | ByLoop

  datatype State<X> = State(
    queue: seq<X>,           // m_invocations
    keepAlive: bool,         // m_state->m_signal is set
    mutex: Owner,
    signalled: bool,         // the event loop has the callback scheduled
    producers: seq<Producer<X>>,
    loop: Loop,
    // histories
    invoked: seq<seq<X>>,    // the calls that each producer has begun, in order
    pushed: seq<X>,          // all calls pushed, in order
    origin: seq<nat>,        // ... and by which producer
    delivered: seq<X>,       // all queued calls made by the callback, in order
    direct: seq<X>)          // all calls made on the loop thread itself, in order

  // Invoke: thread p calls the dispatcher.  Direct: the loop thread does, possibly from
  // inside the called function.
  datatype Act<X> = Invoke(p: nat, x: X) | Produce(p: nat) | Direct(x: X) | RunLoop

  predicate Enabled<X>(s: State<X>, a: Act<X>) {
    match a
    case Invoke(p, _) => p < |s.producers| && p < |s.invoked| && s.producers[p].PIdle?
    case Produce(p) =>
      p < |s.producers| && !s.producers[p].PIdle? && (s.producers[p].PLock? ==> s.mutex == Nobody)
    case Direct(_) => s.loop == LIdle || s.loop == LCall
    case RunLoop => LoopEnabled(s)
  }

  predicate LoopEnabled<X>(s: State<X>) {
    && (s.loop == LIdle ==> s.signalled)
    && (s.loop == LLock ==> s.mutex == Nobody)
    && (s.loop == LCall || s.loop == LPop ==> s.queue != [])
  }

  function LoopStep<X>(s: State<X>): State<X>
    requires LoopEnabled(s)
  {
    match s.loop
    case LIdle => s.(signalled := false, loop := LLock)
    case LLock => s.(mutex := ByLoop, loop := LTest)
    case LTest => s.(loop := if s.queue == [] then LReset else LCall)
    case LCall => s.(delivered := s.delivered + [s.queue[0]], loop := LPop)
    case LPop => s.(queue := s.queue[1..], loop := LTest)
    case LReset => s.(keepAlive := false, loop := LUnlock)
    case LUnlock => s.(mutex := Nobody, loop := LIdle)
  }

  function ProducerStep<X>(s: State<X>, p: nat): State<X>
    requires Enabled(s, Produce(p))
  {
    match s.producers[p]
    case PLock(x) => s.(mutex := ByProducer(p), producers := s.producers[p := PSignal(x)])
    case PSignal(x) => s.(keepAlive := true, producers := s.producers[p := PPush(x)])
    case PPush(x) => s.(queue := s.queue + [x], pushed := s.pushed + [x], origin := s.origin + [p],
                       producers := s.producers[p := PUnlock])
    case PUnlock => s.(mutex := Nobody, producers := s.producers[p := PNotify])
    case PNotify => s.(signalled := true, producers := s.producers[p := PIdle])
  }

  function Do<X>(s: State<X>, a: Act<X>): State<X>
    requires Enabled(s, a)
  {
    match a
    case Invoke(p, x) => s.(producers := s.producers[p := PLock(x)], invoked := s.invoked[p := s.invoked[p] + [x]])
    case Produce(p) => ProducerStep(s, p)
    case Direct(x) => s.(direct := s.direct + [x])
    case RunLoop => LoopStep(s)
  }

  function Init<X>(n: nat): State<X> {
    State([], false, Nobody, false, seq(n, _ => PIdle), LIdle, seq(n, _ => []), [], [], [], [])
  }

  ghost predicate IsRun<X>(n: nat, w: seq<Act<X>>, b: seq<State<X>>) {
    && |b| == |w| + 1 && b[0] == Init(n)
    && forall i :: 0 <= i < |w| ==> Enabled(b[i], w[i]) && b[i + 1] == Do(b[i], w[i])
  }

  // ---------- the invariant ----------

  predicate Inside<X>(p: Producer<X>) { p.PSignal? || p.PPush? || p.PUnlock? }

  predicate LoopInside(l: Loop) { l != LIdle && l != LLock }

  predicate MutexInv<X>(s: State<X>) {
    && (forall p :: 0 <= p < |s.producers| ==> (Inside(s.producers[p]) <==> s.mutex == ByProducer(p)))
    && (s.mutex.ByProducer? ==> s.mutex.p < |s.producers|)
    && (LoopInside(s.loop) <==> s.mutex == ByLoop)
  }

  // What has been pushed is what has been delivered and then what is still queued; while
  // the callback is between the call and the pop, the front is both.
  ghost predicate DeliveryInv<X>(s: State<X>) {
    && (s.loop == LCall || s.loop == LPop ==> s.queue != [])
    && (s.loop == LReset || s.loop == LUnlock ==> s.queue == [])
    && s.pushed == s.delivered + Undelivered(s)
  }

  function Undelivered<X>(s: State<X>): seq<X> {
    if s.loop == LPop && s.queue != [] then s.queue[1..] else s.queue
  }

  // The calls of producer p among those pushed.
  function Of<X>(pushed: seq<X>, origin: seq<nat>, p: nat): seq<X>
    requires |pushed| == |origin|
  {
    if pushed == [] then []
    else
      var n := |pushed| - 1;
      Of(pushed[..n], origin[..n], p) + if origin[n] == p then [pushed[n]] else []
  }

  // The call that a producer has begun but not pushed yet.
  function InFlight<X>(r: Producer<X>): seq<X> {
    if r.PLock? || r.PSignal? || r.PPush? then [r.x] else []
  }

  // Each producer's calls are pushed once each, in its order.
  ghost predicate OriginInv<X>(s: State<X>) {
    && |s.invoked| == |s.producers| && |s.pushed| == |s.origin|
    && forall p :: 0 <= p < |s.producers| ==>
         s.invoked[p] == Of(s.pushed, s.origin, p) + InFlight(s.producers[p])
  }

  predicate AboutToNotify<X>(s: State<X>, p: nat) {
    p < |s.producers| && (s.producers[p].PUnlock? || s.producers[p].PNotify?)
  }

  // Queued work keeps the signal alive and has a callback coming, or under way, or a
  // producer that is between its push and its notify.
  ghost predicate AliveInv<X>(s: State<X>) {
    && (s.queue != [] ==> s.keepAlive)
    && (forall p :: 0 <= p < |s.producers| && s.producers[p].PPush? ==> s.keepAlive)
    && (s.queue != [] ==> s.signalled || s.loop != LIdle || exists p :: AboutToNotify(s, p))
  }

  ghost predicate Inv<X>(s: State<X>) {
    MutexInv(s) && DeliveryInv(s) && AliveInv(s) && OriginInv(s)
  }

  lemma MutexStep<X>(s: State<X>, a: Act<X>)
    requires Inv(s) && Enabled(s, a)
    ensures MutexInv(Do(s, a))
  {
    hide DeliveryInv, AliveInv, OriginInv, Of;
    match a
    case Produce(p) => match s.producers[p] { case PLock(_) => case PSignal(_) => case PPush(_) => case PUnlock => case PNotify => }
    case RunLoop => match s.loop { case LIdle => case LLock => case LUnlock => case _ => }
    case _ =>
  }

  lemma DeliveryLoop<X>(s: State<X>)
    requires DeliveryInv(s) && LoopEnabled(s)
    ensures DeliveryInv(LoopStep(s))
  {
    if s.loop == LCall {
      assert s.queue == [s.queue[0]] + s.queue[1..];
      assert s.pushed == (s.delivered + [s.queue[0]]) + s.queue[1..];
    }
  }

  lemma DeliveryProduce<X>(s: State<X>, p: nat)
    requires DeliveryInv(s) && Enabled(s, Produce(p))
    requires s.producers[p].PPush? ==> !LoopInside(s.loop)
    ensures DeliveryInv(ProducerStep(s, p))
  {
    if s.producers[p].PPush? {
      assert s.pushed + [s.producers[p].x] == s.delivered + (s.queue + [s.producers[p].x]);
    }
  }

  lemma DeliveryStep<X>(s: State<X>, a: Act<X>)
    requires Inv(s) && Enabled(s, a)
    ensures DeliveryInv(Do(s, a))
  {
    hide AliveInv, OriginInv, ProducerStep, LoopStep;
    match a
    case Produce(p) => DeliveryProduce(s, p);
    case RunLoop => DeliveryLoop(s);
    case _ =>
  }

  lemma AliveStep<X>(s: State<X>, a: Act<X>)
    requires Inv(s) && Enabled(s, a)
    ensures AliveInv(Do(s, a))
  {
    var s' := Do(s, a);
    if a.Produce? && (s.producers[a.p].PPush? || s.producers[a.p].PUnlock?) {
      assert AboutToNotify(s', a.p);
    } else if p :| AboutToNotify(s, p) {
      assert (a.Produce? && a.p == p) || AboutToNotify(s', p);
    }
  }

  lemma OfPush<X>(pushed: seq<X>, origin: seq<nat>, x: X, q: nat, p: nat)
    requires |pushed| == |origin|
    ensures Of(pushed + [x], origin + [q], p) == if p == q then Of(pushed, origin, p) + [x] else Of(pushed, origin, p)
  {
    assert (pushed + [x])[..|pushed|] == pushed && (origin + [q])[..|pushed|] == origin;
  }

  lemma OriginStep<X>(s: State<X>, a: Act<X>)
    requires Inv(s) && Enabled(s, a)
    ensures OriginInv(Do(s, a))
  {
    hide MutexInv, DeliveryInv, AliveInv, Of;
    if a.Produce? && s.producers[a.p].PPush? {
      forall p | 0 <= p < |s.producers| {
        OfPush(s.pushed, s.origin, s.producers[a.p].x, a.p, p);
      }
    }
  }

  lemma {:induction false} RunInv<X>(n: nat, w: seq<Act<X>>, b: seq<State<X>>, i: nat)
    requires IsRun(n, w, b) && i < |b|
    ensures Inv(b[i])
    decreases i
  {
    if i > 0 {
      RunInv(n, w, b, i - 1);
      MutexStep(b[i - 1], w[i - 1]);
      DeliveryStep(b[i - 1], w[i - 1]);
      AliveStep(b[i - 1], w[i - 1]);
      OriginStep(b[i - 1], w[i - 1]);
    } else {
      assert b[0].pushed == b[0].delivered + b[0].queue;
    }
  }

  // ---------- what the dispatcher guarantees, in every state of every run ----------

  // Every pushed call is delivered at most once and in order, and none is lost.
  lemma ExactlyOnceInOrder<X>(n: nat, w: seq<Act<X>>, b: seq<State<X>>, i: nat)
    requires IsRun(n, w, b) && i < |b|
    ensures b[i].pushed == b[i].delivered + Undelivered(b[i])
    ensures b[i].delivered <= b[i].pushed
    ensures |b[i].producers| == |b[i].invoked| && |b[i].pushed| == |b[i].origin|
    ensures forall p :: 0 <= p < |b[i].producers| ==>
              b[i].invoked[p] == Of(b[i].pushed, b[i].origin, p) + InFlight(b[i].producers[p])
  {
    RunInv(n, w, b, i);
  }

  lemma NeverStrandsWork<X>(n: nat, w: seq<Act<X>>, b: seq<State<X>>, i: nat)
    requires IsRun(n, w, b) && i < |b| && b[i].queue != []
    ensures b[i].keepAlive
    ensures b[i].signalled || b[i].loop in {LLock, LTest, LCall, LPop} || exists p :: AboutToNotify(b[i], p)
  {
    RunInv(n, w, b, i);
  }

  // The calls among the moves that are made on the loop thread itself.
  function DirectArgs<X>(w: seq<Act<X>>): seq<X> {
    if w == [] then []
    else DirectArgs(w[..|w| - 1]) + if w[|w| - 1].Direct? then [w[|w| - 1].x] else []
  }

  function Others<X>(w: seq<Act<X>>): seq<Act<X>> {
    if w == [] then []
    else Others(w[..|w| - 1]) + if w[|w| - 1].Direct? then [] else [w[|w| - 1]]
  }

  // The calls made on the loop thread are made once each, in order, and are invisible to
  // the rest: without them the run is a run too, and ends in the same state but for them.
  lemma {:induction false} DirectCalls<X>(n: nat, w: seq<Act<X>>, b: seq<State<X>>, i: nat) returns (c: seq<State<X>>)
    requires IsRun(n, w, b) && i < |b|
    ensures b[i].direct == DirectArgs(w[..i])
    ensures IsRun(n, Others(w[..i]), c) && c[|c| - 1] == b[i].(direct := [])
    decreases i
  {
    hide Do, Enabled;
    if i == 0 {
      c := [b[0]];
    } else {
      c := DirectCalls(n, w, b, i - 1);
      var a := w[i - 1];
      assert w[..i][..i - 1] == w[..i - 1];
      DirectAlone(b[i - 1], a);
      if !a.Direct? {
        c := c + [Do(c[|c| - 1], a)];
      }
    }
  }

  lemma DirectAlone<X>(s: State<X>, a: Act<X>)
    requires Enabled(s, a)
    ensures a.Direct? ==> Do(s, a) == s.(direct := s.direct + [a.x])
    ensures !a.Direct? ==> Do(s, a).direct == s.direct && Enabled(s.(direct := []), a)
                           && Do(s.(direct := []), a) == Do(s, a).(direct := [])
  {
  }

  // ---------- the loop alone delivers everything ----------

  function LoopAlone<X>(s: State<X>, k: nat): State<X>
    decreases k
  {
    if k == 0 || !LoopEnabled(s) then s else LoopAlone(LoopStep(s), k - 1)
  }

  // The statements that the loop has to execute until it has nothing left to do.
  function Work<X>(s: State<X>): nat {
    var q := 3 * |s.queue|;
    match s.loop
    case LIdle => if s.signalled then q + 5 else 0
    case LLock => q + 4 + Again(s)
    case LTest => q + 3 + Again(s)
    case LCall => q + 2 + Again(s)
    case LPop => q + 1 + Again(s)
    case LReset => 2 + Again(s)
    case LUnlock => 1 + Again(s)
  }

  // A notification that came while the callback was running makes it run once more.
  function Again<X>(s: State<X>): nat { if s.signalled then 5 else 0 }

  predicate AllIdle<X>(s: State<X>) {
    forall p :: 0 <= p < |s.producers| ==> s.producers[p].PIdle?
  }

  lemma {:induction false} DrainsAlone<X>(s: State<X>, k: nat)
    requires Inv(s) && AllIdle(s) && k == Work(s)
    ensures var e := LoopAlone(s, k);
            && e.queue == [] && e.delivered == e.pushed == s.pushed
            && e.loop == LIdle && !e.signalled && e.mutex == Nobody && e.direct == s.direct
    decreases k
  {
    hide MutexInv, OriginInv, Of;
    if k == 0 {
      MutexFree(s);
      assert s.delivered + [] == s.delivered;
      assert forall p :: !AboutToNotify(s, p);
    } else {
      assert LoopEnabled(s) by {
        if s.loop == LLock { MutexFree(s); }
      }
      MutexStep(s, RunLoop);
      DeliveryStep(s, RunLoop);
      AliveStep(s, RunLoop);
      OriginStep(s, RunLoop);
      DrainsAlone(LoopStep(s), k - 1);
    }
  }

  lemma MutexFree<X>(s: State<X>)
    requires MutexInv(s) && AllIdle(s) && !LoopInside(s.loop)
    ensures s.mutex == Nobody
  {
  }

  // One run of the callback, from locking to unlocking, delivers the whole queue.
  lemma {:induction false} CallbackAlone<X>(s: State<X>)
    requires s.loop == LTest && s.mutex == ByLoop
    ensures LoopAlone(s, 3 * |s.queue| + 3)
         == s.(queue := [], delivered := s.delivered + s.queue, keepAlive := false, mutex := Nobody, loop := LIdle)
    decreases |s.queue|
  {
    if s.queue == [] {
      assert s.delivered + [] == s.delivered;
      var s1 := LoopStep(s);
      var s2 := LoopStep(s1);
      assert LoopAlone(s2, 1) == LoopStep(s2);
      assert LoopAlone(s1, 2) == LoopAlone(s2, 1);
    } else {
      var n := 3 * |s.queue| + 3;
      var s1 := LoopStep(s);
      var s2 := LoopStep(s1);
      var s3 := LoopStep(s2);
      assert LoopAlone(s2, n - 2) == LoopAlone(s3, n - 3);
      assert LoopAlone(s1, n - 1) == LoopAlone(s2, n - 2);
      CallbackAlone(s3);
      assert (s.delivered + [s.queue[0]]) + s.queue[1..] == s.delivered + s.queue;
    }
  }

  // ---------- one producer alone ----------

  // Producer p going on alone for k statements.
  function ProducerAlone<X>(s: State<X>, p: nat, k: nat): State<X>
    decreases k
  {
    if k == 0 || !Enabled(s, Produce(p)) then s else ProducerAlone(ProducerStep(s, p), p, k - 1)
  }

  // A call on thread p, from beginning to end.
  function CallAlone<X>(s: State<X>, p: nat, x: X): State<X>
    requires Enabled(s, Invoke(p, x))
  {
    ProducerAlone(Do(s, Invoke(p, x)), p, 5)
  }

  lemma CallIs<X>(s: State<X>, p: nat, x: X)
    requires Enabled(s, Invoke(p, x)) && s.mutex == Nobody
    ensures CallAlone(s, p, x)
         == s.(keepAlive := true, queue := s.queue + [x], signalled := true, pushed := s.pushed + [x],
               origin := s.origin + [p], invoked := s.invoked[p := s.invoked[p] + [x]])
  {
    var s0 := Do(s, Invoke(p, x));
    var s1 := ProducerStep(s0, p);
    var s2 := ProducerStep(s1, p);
    var s3 := ProducerStep(s2, p);
    var s4 := ProducerStep(s3, p);
    assert ProducerAlone(s4, p, 1) == ProducerStep(s4, p);
    assert ProducerAlone(s3, p, 2) == ProducerAlone(s4, p, 1);
    assert ProducerAlone(s2, p, 3) == ProducerAlone(s3, p, 2);
    assert ProducerAlone(s1, p, 4) == ProducerAlone(s2, p, 3);
    assert ProducerStep(s4, p).producers == s.producers;
  }

  // ---------- the dispatcher as an object ----------

  /** The methods over their fields, each run without interruption; in between, no thread is
      inside a method. */
  class EventLoopDispatcher<X> {
    var invocations: seq<X>
    var signal: bool          // m_state->m_signal is set
    var notified: bool        // the event loop has the callback scheduled
    var delivered: seq<X>     // the calls of the function by the callback
    var direct: seq<X>        // ... and on the loop thread itself
    ghost var invoked: seq<seq<X>>
    ghost var pushed: seq<X>
    ghost var origin: seq<nat>

    // The state of the model with all threads outside.
    ghost function View(): State<X>
      reads this
    {
      State(invocations, signal, Nobody, notified, seq(|invoked|, _ => PIdle), LIdle,
            invoked, pushed, origin, delivered, direct)
    }

    constructor (ghost n: nat)
      ensures View() == Init(n)
    {
      invocations, signal, notified, delivered, direct := [], false, false, [], [];
      invoked, pushed, origin := seq(n, _ => []), [], [];
    }

    // operator() on the loop thread
    method CallHere(x: X)
      modifies this
      ensures View() == Do(old(View()), Direct(x))
    {
      direct := direct + [x];
    }

    // operator() on thread p
    method CallElsewhere(ghost p: nat, x: X)
      requires p < |invoked|
      modifies this
      ensures View() == CallAlone(old(View()), p, x)
    {
      CallIs(View(), p, x);
      invoked := invoked[p := invoked[p] + [x]];
      signal := true;
      invocations := invocations + [x];
      pushed, origin := pushed + [x], origin + [p];
      notified := true;
    }

    // The event loop takes the notification and runs Callback::operator().
    method RunCallback()
      requires notified
      modifies this
      ensures View() == LoopAlone(old(View()), 3 * |old(invocations)| + 5)
      ensures invocations == [] && !signal && delivered == old(delivered) + old(invocations)
    {
      ghost var s0 := View();
      ghost var s1 := LoopStep(s0);
      ghost var s2 := LoopStep(s1);
      CallbackAlone(s2);
      assert LoopAlone(s1, 3 * |invocations| + 4) == LoopAlone(s2, 3 * |invocations| + 3);
      notified := false;
      while invocations != []
        invariant delivered + invocations == old(delivered) + old(invocations)
        invariant !notified && pushed == old(pushed) && origin == old(origin) && invoked == old(invoked) && direct == old(direct)
        decreases |invocations|
      {
        var front := invocations[0];
        delivered := delivered + [front];
        invocations := invocations[1..];
      }
      signal := false;
    }
  }
}
