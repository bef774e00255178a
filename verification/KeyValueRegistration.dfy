/** Registering and removing an observer: which registrations are on a key, what a new one
    hears from its registration on, and that a removed one hears nothing more. */
module KeyValueRegistration {
  import opened KeyValueObserving
  import opened KeyValueHistories

  // ---------- removal ----------

  // Removal drops the first registration of the observer that asked for something, keeps
  // the others in their order, and forgets the key with its last one.
  lemma RemovedDrops(R: Registry, o: nat, k: Key) returns (i: nat)
    ensures !Registered(R, o, k) ==> Removed(R, o, k) == R
    ensures Registered(R, o, k) ==>
              && i < |R[k]| && Matches(R[k][i], o) && (forall j :: 0 <= j < i ==> !Matches(R[k][j], o))
              && Removed(R, o, k) == if |R[k]| == 1 then R - {k} else R[k := R[k][..i] + R[k][i + 1..]]
  {
    i := 0;
    if Registered(R, o, k) {
      i := WithoutIs(R[k], o);
      var ps := R[k][..i] + R[k][i + 1..];
      assert |ps| == |R[k]| - 1;
    }
  }

  // ---------- one registration for each observer ----------

  predicate Asks(op: Op) {
    op.Add? ==> op.wantsNew || op.wantsOld || op.wantsInit
  }

  predicate OrderlyAt(ps: seq<Pair>) {
    && (forall i :: 0 <= i < |ps| ==> Matches(ps[i], ps[i].observer))
    && forall i, j :: 0 <= i < j < |ps| ==> ps[i].observer != ps[j].observer
  }

  // Every observer has at most one registration on a key, and asked for something.
  ghost predicate Orderly(R: Registry) {
    forall k :: k in R ==> OrderlyAt(R[k])
  }

  // No registration of o on d.
  predicate Silent(R: Registry, o: nat, d: Key) {
    d in R ==> forall i :: 0 <= i < |R[d]| ==> R[d][i].observer != o
  }

  lemma RemovedOrderly(R: Registry, o: nat, k: Key)
    requires Orderly(R)
    ensures Orderly(Removed(R, o, k)) && Silent(Removed(R, o, k), o, k)
  {
    var i := RemovedDrops(R, o, k);
    if k in R && !Registered(R, o, k) {
      forall j | 0 <= j < |R[k]| ensures R[k][j].observer != o {
        assert Matches(R[k][j], R[k][j].observer);
      }
    }
    if Registered(R, o, k) {
      var ps := R[k][..i] + R[k][i + 1..];
      assert forall j :: 0 <= j < |ps| ==> ps[j] == R[k][if j < i then j else j + 1];
      assert OrderlyAt(R[k]);
    }
  }

  lemma StepOrderly(g: Graph, R: Registry, vals: Values, op: Op)
    requires Acyclic(g) && Quiescent(R) && Orderly(R) && Asks(op)
    ensures Quiescent(Apply(g, R, vals, op).0) && Orderly(Apply(g, R, vals, op).0)
  {
    match op
    case Add(o, k, _, _, _) =>
      RemovedOrderly(R, o, k);
      AddedDelivers(g, R, vals, op);
    case Remove(o, k) =>
      RemovedOrderly(R, o, k);
      RemovedQuiet(R, o, k);
    case Bracket(k, after) => DidDelivers(g, R, vals, after, k, New);
  }

  // In any run from an empty registry in which every registration asks for something.
  lemma {:induction false} RunOrderly(g: Graph, vals: Values, ops: seq<Op>)
    requires Acyclic(g) && forall i :: 0 <= i < |ops| ==> Asks(ops[i])
    ensures Quiescent(Run(g, map[], vals, ops).0) && Orderly(Run(g, map[], vals, ops).0)
  {
    hide Quiescent, Orderly, Apply, Acyclic;
    if ops == [] {
      EmptyOrderly();
    } else {
      var init := ops[..|ops| - 1];
      RunOrderly(g, vals, init);
      StepOrderly(g, Run(g, map[], vals, init).0, ValuesAfter(vals, init), ops[|ops| - 1]);
    }
  }

  lemma EmptyOrderly()
    ensures Quiescent(map[]) && Orderly(map[])
  {
  }

  // ---------- from a registration on ----------

  // The registration that op makes, once its initial notice is over.
  function Made(op: Op): Pair
    requires op.Add?
  {
    Pair(op.observer, op.wantsNew, op.wantsOld, op.wantsInit, true, op.wantsInit, Reset)
  }

  // An observer that registers for new values, or without an initial notice, is a listener
  // with the flags that it asked for, and hears the current value at once if it asked to.
  lemma AddedListens(g: Graph, R: Registry, vals: Values, op: Op)
    requires Acyclic(g) && Quiescent(R) && Orderly(R) && op.Add? && (op.wantsNew || !op.wantsInit)
    ensures var (S, e) := Added(g, R, vals, op);
            && Quiescent(S) && Listens(S, op.key, Made(op))
            && Heard(e, op.observer, op.key) == if op.wantsInit then [vals(op.key)] else []
  {
    hide Did, Will, Removed, Acyclic, Notices, NoticesAt;
    var o, k, v := op.observer, op.key, vals(op.key);
    var others := Removed(R, o, k);
    var S := Enlisted(others, k, Made(op));
    AddedDelivers(g, R, vals, op);
    RemovedOrderly(R, o, k);
    var ps := if k in others then others[k] else [];
    assert S[k] == ps + [Made(op)] && S[k][|ps|] == Made(op);
    assert forall i :: 0 <= i < |ps| ==> S[k][i] == ps[i];
    assert Listens(S, k, Made(op));
    var at := NoticesAt(others, k, v, v, Initialize);
    var own := [Event(o, k, Change(Initialize, if op.wantsOld then v else Nil, v))];
    var more := Notices(S, vals, VisitsFrom(g, k, 0), Initialize);
    SilentAt(others, k, v, v, Initialize, o, k);
    VisitsHeard(S, vals, VisitsFrom(g, k, 0), Initialize, k, Made(op));
    VisitsDescend(g, k, 0, k);
    HeardConcat(at, own, o, k);
    HeardConcat(if op.wantsInit then at + own else [], more, o, k);
    assert Heard(own, o, k) == [v];
  }

  // A run is its first operation and then the rest.
  lemma {:induction false} RunCons(g: Graph, R: Registry, vals: Values, op: Op, ops: seq<Op>)
    requires Acyclic(g)
    ensures ValuesAfter(vals, [op] + ops) == ValuesAfter(After(op, vals), ops)
    ensures var (S, e) := Apply(g, R, vals, op);
            var (T, f) := Run(g, S, After(op, vals), ops);
            Run(g, R, vals, [op] + ops) == (T, e + f)
    decreases |ops|
  {
    hide Apply, Acyclic;
    var (S, e) := Apply(g, R, vals, op);
    var all := [op] + ops;
    if ops == [] {
      assert all[..0] == [] && all == [op];
      assert Run(g, R, vals, all[..0]) == (R, []) && ValuesAfter(vals, all[..0]) == vals;
      assert [] + e == e + [];
    } else {
      var init, last := ops[..|ops| - 1], ops[|ops| - 1];
      RunCons(g, R, vals, op, init);
      assert all[..|all| - 1] == [op] + init && all[|all| - 1] == last;
      var (T, f) := Run(g, S, After(op, vals), init);
      var (U, h) := Apply(g, T, ValuesAfter(After(op, vals), init), last);
      assert (e + f) + h == e + (f + h);
    }
  }

  // What an observer hears in a run that begins with its registration.
  lemma RegisteredHears(g: Graph, R: Registry, vals: Values, op: Op, ops: seq<Op>)
    requires Acyclic(g) && Quiescent(R) && Orderly(R) && op.Add? && (op.wantsNew || !op.wantsInit)
    requires AllSpare(ops, op.key, Made(op))
    ensures Heard(Run(g, R, vals, [op] + ops).1, op.observer, op.key)
         == (if op.wantsInit then [vals(op.key)] else []) + Told(g, vals, ops, op.key, Made(op))
  {
    hide Listens, Quiescent, Orderly, Acyclic, Added, Run, Told;
    RunCons(g, R, vals, op, ops);
    AddedListens(g, R, vals, op);
    var (S, e) := Added(g, R, vals, op);
    RunHeard(g, S, vals, ops, op.key, Made(op));
    HeardConcat(e, Run(g, S, vals, ops).1, op.observer, op.key);
  }

  // After registering, an observer hears the history of the key without repeats in every
  // run, if and only if it registered for old values and the key depends on no other.
  lemma RegisteredFaithfulIff(g: Graph, R: Registry, before: Values, op: Op)
    requires Acyclic(g) && Quiescent(R) && Orderly(R) && op.Add? && (op.wantsNew || !op.wantsInit)
    ensures op.wantsOld && Independent(g, op.key)
       <==> forall vals: Values, ops: seq<Op> ::
              Proper(g, Added(g, R, before, op).0, vals, ops, op.key, Made(op)) ==>
                Faithful(g, Added(g, R, before, op).0, vals, ops, op.key, Made(op))
  {
    hide Quiescent, Orderly, Acyclic, Added, Listens, Proper, Faithful, Independent;
    AddedListens(g, R, before, op);
    FaithfulIff(g, Added(g, R, before, op).0, op.key, Made(op));
  }

  // ---------- from a removal on ----------

  lemma SilentAt(R: Registry, k: Key, before: Any, after: Any, kind: Kind, o: nat, d: Key)
    requires Silent(R, o, d)
    ensures Heard(NoticesAt(R, k, before, after, kind), o, d) == []
  {
    if k in R {
      NobodyHears(R[k], k, before, after, kind, o, d);
    }
  }

  lemma {:induction false} SilentVisits(R: Registry, vals: Values, ks: seq<Key>, kind: Kind, o: nat, d: Key)
    requires Silent(R, o, d)
    ensures Heard(Notices(R, vals, ks, kind), o, d) == []
  {
    if ks != [] {
      var before := if kind == Initialize then vals(ks[0]) else Nil;
      SilentVisits(R, vals, ks[1..], kind, o, d);
      SilentAt(R, ks[0], before, vals(ks[0]), kind, o, d);
      HeardConcat(NoticesAt(R, ks[0], before, vals(ks[0]), kind), Notices(R, vals, ks[1..], kind), o, d);
    }
  }

  lemma SilentRemoved(R: Registry, o: nat, k: Key, p: nat, d: Key)
    requires Silent(R, p, d)
    ensures Silent(Removed(R, o, k), p, d)
  {
    var i := RemovedDrops(R, o, k);
  }

  lemma SilentStep(g: Graph, R: Registry, vals: Values, op: Op, o: nat, d: Key)
    requires Acyclic(g) && Quiescent(R) && Silent(R, o, d) && !(op.Add? && op.observer == o && op.key == d)
    ensures var (S, e) := Apply(g, R, vals, op);
            Quiescent(S) && Silent(S, o, d) && Heard(e, o, d) == []
  {
    hide Did, Will, Removed, Notices, NoticesAt, Acyclic;
    match op
    case Remove(p, k) =>
      RemovedQuiet(R, p, k);
      SilentRemoved(R, p, k, o, d);
    case Bracket(k, after) =>
      var ks := VisitsFrom(g, k, 0);
      DidDelivers(g, R, vals, after, k, New);
      SilentAt(R, k, vals(k), after(k), New, o, d);
      SilentVisits(R, after, ks, New, o, d);
      HeardConcat(NoticesAt(R, k, vals(k), after(k), New), Notices(R, after, ks, New), o, d);
    case Add(p, k, _, _, _) =>
      var others, v := Removed(R, p, k), vals(k);
      var S := Enlisted(others, k, Made(op));
      AddedDelivers(g, R, vals, op);
      SilentRemoved(R, p, k, o, d);
      assert Silent(S, o, d);
      var at := NoticesAt(others, k, v, v, Initialize);
      var own := [Event(p, k, Change(Initialize, if op.wantsOld then v else Nil, v))];
      var more := Notices(S, vals, VisitsFrom(g, k, 0), Initialize);
      SilentAt(others, k, v, v, Initialize, o, d);
      NotMine(own[0], o, d);
      SilentVisits(S, vals, VisitsFrom(g, k, 0), Initialize, o, d);
      HeardConcat(at, own, o, d);
      HeardConcat(if op.wantsInit then at + own else [], more, o, d);
  }

  lemma {:induction false} SilentRun(g: Graph, R: Registry, vals: Values, ops: seq<Op>, o: nat, d: Key)
    requires Acyclic(g) && Quiescent(R) && Silent(R, o, d)
    requires forall i :: 0 <= i < |ops| ==> !(ops[i].Add? && ops[i].observer == o && ops[i].key == d)
    ensures Quiescent(Run(g, R, vals, ops).0) && Silent(Run(g, R, vals, ops).0, o, d)
    ensures Heard(Run(g, R, vals, ops).1, o, d) == []
  {
    hide Quiescent, Silent, Acyclic, Apply;
    if ops != [] {
      var init, op := ops[..|ops| - 1], ops[|ops| - 1];
      SilentRun(g, R, vals, init, o, d);
      var (S, e) := Run(g, R, vals, init);
      SilentStep(g, S, ValuesAfter(vals, init), op, o, d);
      HeardConcat(e, Apply(g, S, ValuesAfter(vals, init), op).1, o, d);
    }
  }

  // A removed observer hears nothing more of the key, in any run in which it does not
  // register again.
  lemma RemovedHearsNothing(g: Graph, R: Registry, vals: Values, ops: seq<Op>, o: nat, d: Key)
    requires Acyclic(g) && Quiescent(R) && Orderly(R)
    requires forall i :: 0 <= i < |ops| ==> !(ops[i].Add? && ops[i].observer == o && ops[i].key == d)
    ensures Heard(Run(g, Removed(R, o, d), vals, ops).1, o, d) == []
  {
    RemovedOrderly(R, o, d);
    RemovedQuiet(R, o, d);
    SilentRun(g, Removed(R, o, d), vals, ops, o, d);
  }
}
