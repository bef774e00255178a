/** Key-value observing: per-observer old and new values, and the propagation of a change
    to the keys that depend on the changed key.

    The dependency relation gives for each key the keys to notify after it, in the order
    of std::set; it is acyclic, witnessed by a rank. */
module KeyValueObserving {

  type Key = string

  // Rx::Any: nothing, or a value.
  datatype Any = Nil | Val(x: int)

  datatype Kind = Invalid | New | Initialize

  datatype Change = Change(kind: Kind, oldValue: Any, newValue: Any)

  const Reset := Change(Invalid, Nil, Nil)

  // KVOPair; the three flags are the bits of its notify kind.
  datatype Pair = Pair(observer: nat, wantsNew: bool, wantsOld: bool, wantsInit: bool,
                       enabled: bool, initialized: bool, change: Change)

  datatype Event = Event(observer: nat, key: Key, change: Change)

  type Registry = map<Key, seq<Pair>>
  type Values = Key -> Any

  datatype Graph = Graph(affected: map<Key, seq<Key>>, rank: map<Key, nat>)

  function Rank(g: Graph, k: Key): nat {
    if k in g.rank then g.rank[k] else 0
  }

  // keyPathsForValuesAffectingValueForKey
  function Affected(g: Graph, k: Key): seq<Key> {
    if k in g.affected then g.affected[k] else []
  }

  ghost predicate Acyclic(g: Graph) {
    forall k: Key, i :: 0 <= i < |Affected(g, k)| ==> Rank(g, Affected(g, k)[i]) < Rank(g, k)
  }

  // ---------- one observer ----------

  function WillPair(p: Pair, v: Any): Pair {
    if p.enabled && p.wantsOld then p.(change := p.change.(oldValue := v)) else p
  }

  // The new value that an observer compares and reports.
  function NewValue(p: Pair, v: Any): Any {
    if p.wantsNew || !p.initialized then v else p.change.newValue
  }

  function DidPair(p: Pair, key: Key, v: Any, kind: Kind, doCall: bool): (Pair, seq<Event>) {
    if !p.enabled then (p, [])
    else
      var nv := NewValue(p, v);
      if p.wantsInit && !p.initialized then
        (p.(initialized := true, change := Reset),
         if doCall then [Event(p.observer, key, Change(Initialize, p.change.oldValue, nv))] else [])
      else
        (p.(change := Reset),
         if doCall && nv != p.change.oldValue then [Event(p.observer, key, Change(kind, p.change.oldValue, nv))] else [])
  }

  // ---------- all observers of a key ----------

  function WillPairs(ps: seq<Pair>, v: Any): seq<Pair> {
    if ps == [] then [] else [WillPair(ps[0], v)] + WillPairs(ps[1..], v)
  }

  function DidPairs(ps: seq<Pair>, key: Key, v: Any, kind: Kind, doCall: bool): (seq<Pair>, seq<Event>) {
    if ps == [] then ([], [])
    else
      var (p, e) := DidPair(ps[0], key, v, kind, doCall);
      var (qs, f) := DidPairs(ps[1..], key, v, kind, doCall);
      ([p] + qs, e + f)
  }

  lemma WillPairsAt(ps: seq<Pair>, i: nat, v: Any)
    requires i <= |ps|
    ensures WillPairs(ps[i..], v)
         == if i == |ps| then [] else [WillPair(ps[i], v)] + WillPairs(ps[i + 1..], v)
  {
    if i < |ps| {
      assert ps[i..][1..] == ps[i + 1..];
    }
  }

  // _willChangeValueForKey, with getValueForKey as the function vals
  function Will(R: Registry, vals: Values, k: Key): Registry {
    if k in R then R[k := WillPairs(R[k], vals(k))] else R
  }

  // _didChangeValueForKey: the observers of k, then recursively the affected keys
  ghost function Did(g: Graph, R: Registry, vals: Values, k: Key, kind: Kind, doCall: bool): (Registry, seq<Event>)
    requires Acyclic(g)
    decreases Rank(g, k), 1, 0
  {
    if R == map[] then (R, [])
    else
      var (ps, e) := if k in R then DidPairs(R[k], k, vals(k), kind, doCall) else ([], []);
      var S := if k in R then R[k := ps] else R;
      var (U, f) := DidAffected(g, S, vals, k, kind, 0);
      (U, e + f)
  }

  ghost function DidAffected(g: Graph, R: Registry, vals: Values, k: Key, kind: Kind, i: nat): (Registry, seq<Event>)
    requires Acyclic(g) && i <= |Affected(g, k)|
    decreases Rank(g, k), 0, |Affected(g, k)| - i
  {
    if i == |Affected(g, k)| then (R, [])
    else
      var d := Affected(g, k)[i];
      var S := if kind == Initialize then Will(R, vals, d) else R;
      var (U, e) := Did(g, S, vals, d, kind, true);
      var (V, f) := DidAffected(g, U, vals, k, kind, i + 1);
      (V, e + f)
  }

  // ---------- what callers do ----------

  datatype Op =
    | Add(observer: nat, key: Key, wantsNew: bool, wantsOld: bool, wantsInit: bool)
    | Remove(observer: nat, key: Key)
    // willChange, then the values become `after`, then didChange
    | Bracket(key: Key, after: Values)

  // The pair that removeObserver looks for: it must have asked for something.
  predicate Matches(p: Pair, observer: nat) {
    p.observer == observer && (p.wantsNew || p.wantsOld || p.wantsInit)
  }

  function Without(ps: seq<Pair>, observer: nat): seq<Pair> {
    if ps == [] then []
    else if Matches(ps[0], observer) then ps[1..]
    else [ps[0]] + Without(ps[1..], observer)
  }

  predicate Registered(R: Registry, observer: nat, k: Key) {
    k in R && exists i :: 0 <= i < |R[k]| && Matches(R[k][i], observer)
  }

  // removeObserver; a key whose last observer goes is erased
  function Removed(R: Registry, observer: nat, k: Key): Registry {
    if !Registered(R, observer, k) then R
    else
      var ps := Without(R[k], observer);
      if ps == [] then R - {k} else R[k := ps]
  }

  function NewPair(op: Op): Pair
    requires op.Add?
  {
    Pair(op.observer, op.wantsNew, op.wantsOld, op.wantsInit, true, false, Reset)
  }

  function Enlisted(R: Registry, k: Key, p: Pair): Registry {
    R[k := (if k in R then R[k] else []) + [p]]
  }

  // addObserver: an earlier registration of the observer on the key is replaced
  ghost function Added(g: Graph, R: Registry, vals: Values, op: Op): (Registry, seq<Event>)
    requires Acyclic(g) && op.Add?
  {
    var S := Enlisted(Removed(R, op.observer, op.key), op.key, NewPair(op));
    Did(g, Will(S, vals, op.key), vals, op.key, Initialize, op.wantsInit)
  }

  ghost function Changed(g: Graph, R: Registry, before: Values, after: Values, k: Key): (Registry, seq<Event>)
    requires Acyclic(g)
  {
    Did(g, Will(R, before, k), after, k, New, true)
  }

  // addObserver goes on using the map entry of the key that it looked up first, so removing
  // an earlier registration must not erase that entry.
  predicate MayAdd(R: Registry, observer: nat, k: Key) {
    Registered(R, observer, k) ==> |R[k]| > 1
  }

  predicate Allowed(R: Registry, op: Op) {
    op.Add? ==> MayAdd(R, op.observer, op.key)
  }

  ghost function Apply(g: Graph, R: Registry, vals: Values, op: Op): (Registry, seq<Event>)
    requires Acyclic(g)
  {
    match op
    case Add(_, _, _, _, _) => Added(g, R, vals, op)
    case Remove(o, k) => (Removed(R, o, k), [])
    case Bracket(k, after) => Changed(g, R, vals, after, k)
  }

  // The values after a run that starts with vals; only a bracket changes them.
  function ValuesAfter(vals: Values, ops: seq<Op>): Values {
    if ops == [] then vals
    else
      var op := ops[|ops| - 1];
      if op.Bracket? then op.after else ValuesAfter(vals, ops[..|ops| - 1])
  }

  ghost function Run(g: Graph, R: Registry, vals: Values, ops: seq<Op>): (Registry, seq<Event>)
    requires Acyclic(g)
  {
    if ops == [] then (R, [])
    else
      var init := ops[..|ops| - 1];
      var (S, e) := Run(g, R, vals, init);
      var (T, f) := Apply(g, S, ValuesAfter(vals, init), ops[|ops| - 1]);
      (T, e + f)
  }

  ghost predicate AllAllowed(g: Graph, R: Registry, vals: Values, ops: seq<Op>)
    requires Acyclic(g)
  {
    ops != [] ==>
      var init := ops[..|ops| - 1];
      AllAllowed(g, R, vals, init) && Allowed(Run(g, R, vals, init).0, ops[|ops| - 1])
  }

  // ---------- between operations, no observer remembers anything ----------

  // After every notification the change record is reset, so the old value that the last
  // line of the loop in _didChangeValueForKey means to keep is gone.
  predicate Quiet(p: Pair) {
    p.change == Reset && (p.wantsInit ==> p.initialized)
  }

  predicate AllQuiet(ps: seq<Pair>) {
    forall i :: 0 <= i < |ps| ==> Quiet(ps[i])
  }

  ghost predicate Quiescent(R: Registry) {
    forall k :: k in R ==> AllQuiet(R[k])
  }

  // The keys that a change of k visits, once for every path that leads to them.
  ghost function Visits(g: Graph, k: Key): seq<Key>
    requires Acyclic(g)
    decreases Rank(g, k), 1, 0
  {
    [k] + VisitsFrom(g, k, 0)
  }

  ghost function VisitsFrom(g: Graph, k: Key, i: nat): seq<Key>
    requires Acyclic(g) && i <= |Affected(g, k)|
    decreases Rank(g, k), 0, |Affected(g, k)| - i
  {
    if i == |Affected(g, k)| then [] else Visits(g, Affected(g, k)[i]) + VisitsFrom(g, k, i + 1)
  }

  // The old value that an observer compares with, when `before` was current at willChange.
  function OldValue(p: Pair, before: Any): Any {
    if p.wantsOld then before else Nil
  }

  // What a quiet observer is told; without a willChange, `before` is nil.
  function NoticeOf(p: Pair, k: Key, before: Any, after: Any, kind: Kind): seq<Event> {
    if p.enabled && NewValue(p, after) != OldValue(p, before)
    then [Event(p.observer, k, Change(kind, OldValue(p, before), NewValue(p, after)))]
    else []
  }

  function NoticesOf(ps: seq<Pair>, k: Key, before: Any, after: Any, kind: Kind): seq<Event> {
    if ps == [] then [] else NoticeOf(ps[0], k, before, after, kind) + NoticesOf(ps[1..], k, before, after, kind)
  }

  function NoticesAt(R: Registry, k: Key, before: Any, after: Any, kind: Kind): seq<Event> {
    if k in R then NoticesOf(R[k], k, before, after, kind) else []
  }

  // Affected keys get a willChange only when the propagation starts from addObserver.
  function Notices(R: Registry, vals: Values, ks: seq<Key>, kind: Kind): seq<Event> {
    if ks == [] then []
    else NoticesAt(R, ks[0], if kind == Initialize then vals(ks[0]) else Nil, vals(ks[0]), kind)
         + Notices(R, vals, ks[1..], kind)
  }

  lemma {:induction false} NoticesConcat(R: Registry, vals: Values, ks: seq<Key>, ls: seq<Key>, kind: Kind)
    ensures Notices(R, vals, ks + ls, kind) == Notices(R, vals, ks, kind) + Notices(R, vals, ls, kind)
  {
    if ks == [] {
      assert ks + ls == ls;
    } else {
      assert (ks + ls)[1..] == ks[1..] + ls;
      NoticesConcat(R, vals, ks[1..], ls, kind);
    }
  }

  lemma {:induction false} NoNotices(R: Registry, vals: Values, ks: seq<Key>, kind: Kind)
    requires R == map[]
    ensures Notices(R, vals, ks, kind) == []
  {
    if ks != [] {
      NoNotices(R, vals, ks[1..], kind);
    }
  }

  lemma {:induction false} DidPairsQuiet(ps: seq<Pair>, k: Key, before: Any, after: Any, kind: Kind)
    requires AllQuiet(ps)
    ensures DidPairs(WillPairs(ps, before), k, after, kind, true) == (ps, NoticesOf(ps, k, before, after, kind))
  {
    if ps != [] {
      assert Quiet(ps[0]);
      DidPairsQuiet(ps[1..], k, before, after, kind);
      assert WillPairs(ps, before)[1..] == WillPairs(ps[1..], before);
      assert ps == [ps[0]] + ps[1..];
    }
  }

  lemma {:induction false} WillPairsNil(ps: seq<Pair>)
    requires AllQuiet(ps)
    ensures WillPairs(ps, Nil) == ps
  {
    if ps != [] {
      assert Quiet(ps[0]);
      WillPairsNil(ps[1..]);
      assert ps == [ps[0]] + ps[1..];
    }
  }

  lemma WillNil(R: Registry, vals: Values, k: Key)
    requires Quiescent(R) && vals(k) == Nil
    ensures Will(R, vals, k) == R
  {
    if k in R {
      WillPairsNil(R[k]);
    }
  }

  // didChange after a matching willChange: the observers of k are each told once, if their
  // new value differs from their old one; then the observers of every affected key, once
  // for each path to it.  The registry ends as it was before the willChange.
  lemma {:induction false} DidDelivers(g: Graph, R: Registry, before: Values, after: Values, k: Key, kind: Kind)
    requires Acyclic(g) && Quiescent(R)
    ensures Did(g, Will(R, before, k), after, k, kind, true)
         == (R, NoticesAt(R, k, before(k), after(k), kind) + Notices(R, after, VisitsFrom(g, k, 0), kind))
    decreases Rank(g, k), 1, 0
  {
    if R == map[] {
      NoNotices(R, after, VisitsFrom(g, k, 0), kind);
      assert k !in R && Will(R, before, k) == R;
      assert NoticesAt(R, k, before(k), after(k), kind) + Notices(R, after, VisitsFrom(g, k, 0), kind) == [];
    } else {
      var S := Will(R, before, k);
      assert S != map[] by { assert S.Keys == R.Keys; }
      if k in R {
        DidPairsQuiet(R[k], k, before(k), after(k), kind);
        assert S[k := R[k]] == R;
      }
      DidAffectedDelivers(g, R, after, k, kind, 0);
    }
  }

  lemma {:induction false} DidAffectedDelivers(g: Graph, R: Registry, vals: Values, k: Key, kind: Kind, i: nat)
    requires Acyclic(g) && Quiescent(R) && i <= |Affected(g, k)|
    ensures DidAffected(g, R, vals, k, kind, i) == (R, Notices(R, vals, VisitsFrom(g, k, i), kind))
    decreases Rank(g, k), 0, |Affected(g, k)| - i
  {
    if i < |Affected(g, k)| {
      var d := Affected(g, k)[i];
      var before: Values := if kind == Initialize then vals else (_ => Nil);
      if kind != Initialize {
        WillNil(R, before, d);
      }
      DidDelivers(g, R, before, vals, d, kind);
      assert Visits(g, d)[1..] == VisitsFrom(g, d, 0);
      DidAffectedDelivers(g, R, vals, k, kind, i + 1);
      NoticesConcat(R, vals, Visits(g, d), VisitsFrom(g, k, i + 1), kind);
    }
  }

  // ---------- registration ----------

  lemma {:induction false} WillPairsAppend(ps: seq<Pair>, p: Pair, v: Any)
    ensures WillPairs(ps + [p], v) == WillPairs(ps, v) + [WillPair(p, v)]
  {
    if ps != [] {
      assert (ps + [p])[1..] == ps[1..] + [p];
      WillPairsAppend(ps[1..], p, v);
    }
  }

  lemma {:induction false} DidPairsAppend(ps: seq<Pair>, p: Pair, k: Key, v: Any, kind: Kind, doCall: bool)
    ensures var (qs, e) := DidPairs(ps, k, v, kind, true);
            var (q, f) := DidPair(p, k, v, kind, doCall);
            DidPairs(ps + [p], k, v, kind, doCall) == (qs + [q], (if doCall then e else []) + f)
  {
    var (q, f) := DidPair(p, k, v, kind, doCall);
    if ps == [] {
      assert ps + [p] == [p];
      assert [q] + [] == [] + [q] && f + [] == [] + f;
    } else {
      assert (ps + [p])[1..] == ps[1..] + [p];
      DidPairsAppend(ps[1..], p, k, v, kind, doCall);
      var (r, d) := DidPair(ps[0], k, v, kind, true);
      var (qs, e) := DidPairs(ps[1..], k, v, kind, true);
      assert [r] + (qs + [q]) == ([r] + qs) + [q];
      assert DidPair(ps[0], k, v, kind, doCall) == (r, if doCall then d else []);
      if doCall {
        assert d + (e + f) == (d + e) + f;
      } else {
        assert [] + ([] + f) == [] + f;
      }
    }
  }

  function Settled(p: Pair): Pair {
    p.(initialized := p.wantsInit)
  }

  lemma {:induction false} WithoutQuiet(ps: seq<Pair>, observer: nat)
    requires AllQuiet(ps)
    ensures AllQuiet(Without(ps, observer))
  {
    if ps != [] && !Matches(ps[0], observer) {
      WithoutQuiet(ps[1..], observer);
      assert Quiet(ps[0]);
    }
  }

  lemma RemovedQuiet(R: Registry, observer: nat, k: Key)
    requires Quiescent(R)
    ensures Quiescent(Removed(R, observer, k))
  {
    if Registered(R, observer, k) {
      WithoutQuiet(R[k], observer);
    }
  }

  // Registration leaves the new observer quiet, with the flags that were asked for.  One that
  // asked for it is told the current value in exactly one notice; before it the others on
  // the key may be told too, and in any case the affected keys are visited as for a change.
  lemma AddedDelivers(g: Graph, R: Registry, vals: Values, op: Op)
    requires Acyclic(g) && Quiescent(R) && op.Add?
    ensures var v := vals(op.key);
            var others := Removed(R, op.observer, op.key);
            var S := Enlisted(others, op.key,
                              Pair(op.observer, op.wantsNew, op.wantsOld, op.wantsInit, true, op.wantsInit, Reset));
            && Quiescent(S)
            && Added(g, R, vals, op)
               == (S, (if op.wantsInit
                       then NoticesAt(others, op.key, v, v, Initialize)
                            + [Event(op.observer, op.key, Change(Initialize, if op.wantsOld then v else Nil, v))]
                       else [])
                      + Notices(S, vals, VisitsFrom(g, op.key, 0), Initialize))
  {
    var others := Removed(R, op.observer, op.key);
    RemovedQuiet(R, op.observer, op.key);
    EnlistedDelivers(g, others, vals, op);
  }

  lemma EnlistedDelivers(g: Graph, R: Registry, vals: Values, op: Op)
    requires Acyclic(g) && Quiescent(R) && op.Add?
    ensures var p := NewPair(op);
            var v := vals(op.key);
            var S := Enlisted(R, op.key, Settled(p));
            && Quiescent(S)
            && Did(g, Will(Enlisted(R, op.key, p), vals, op.key), vals, op.key, Initialize, op.wantsInit)
               == (S, (if op.wantsInit
                       then NoticesAt(R, op.key, v, v, Initialize)
                            + [Event(op.observer, op.key, Change(Initialize, OldValue(p, v), v))]
                       else [])
                      + Notices(S, vals, VisitsFrom(g, op.key, 0), Initialize))
  {
    var p, k, v := NewPair(op), op.key, vals(op.key);
    var ps := if k in R then R[k] else [];
    var S := Enlisted(R, k, Settled(p));
    var W := Will(Enlisted(R, k, p), vals, k);
    assert k in W && W != map[];
    assert W[k := ps + [Settled(p)]] == S;
    WillPairsAppend(ps, p, v);
    DidPairsAppend(WillPairs(ps, v), WillPair(p, v), k, v, Initialize, op.wantsInit);
    DidPairsQuiet(ps, k, v, v, Initialize);
    DidAffectedDelivers(g, S, vals, k, Initialize, 0);
    var (q, f) := DidPair(WillPair(p, v), k, v, Initialize, op.wantsInit);
    assert q == Settled(p);
    assert f == if op.wantsInit then [Event(op.observer, k, Change(Initialize, OldValue(p, v), v))] else [];
    assert DidPairs(W[k], k, v, Initialize, op.wantsInit)
        == (ps + [q], (if op.wantsInit then NoticesAt(R, k, v, v, Initialize) else []) + f);
    if op.wantsInit {
      assert DidPairs(W[k], k, v, Initialize, true).1 == NoticesAt(R, k, v, v, Initialize) + f;
    } else {
      assert DidPairs(W[k], k, v, Initialize, false).1 == [] + [] == [];
    }
  }

  // After any run of registrations, removals and changes no observer holds an old value.
  lemma {:induction false} RunQuiescent(g: Graph, R: Registry, vals: Values, ops: seq<Op>)
    requires Acyclic(g) && Quiescent(R) && AllAllowed(g, R, vals, ops)
    ensures Quiescent(Run(g, R, vals, ops).0)
  {
    if ops != [] {
      var init := ops[..|ops| - 1];
      var S, v := Run(g, R, vals, init).0, ValuesAfter(vals, init);
      RunQuiescent(g, R, vals, init);
      match ops[|ops| - 1]
      case Add(_, _, _, _, _) => AddedDelivers(g, S, v, ops[|ops| - 1]);
      case Remove(o, k) => RemovedQuiet(S, o, k);
      case Bracket(k, after) => DidDelivers(g, S, v, after, k, New);
    }
  }

  lemma {:induction false} WithoutLength(ps: seq<Pair>, observer: nat)
    ensures |Without(ps, observer)| >= |ps| - 1
  {
    if ps != [] && !Matches(ps[0], observer) {
      WithoutLength(ps[1..], observer);
    }
  }

  lemma WithoutShorter(R: Registry, observer: nat, k: Key)
    requires MayAdd(R, observer, k)
    ensures k in R ==> k in Removed(R, observer, k)
  {
    if Registered(R, observer, k) {
      WithoutLength(R[k], observer);
    }
  }

  lemma AffectedRank(g: Graph, k: Key, i: nat)
    requires Acyclic(g) && i < |Affected(g, k)|
    ensures Rank(g, Affected(g, k)[i]) < Rank(g, k)
  {
  }

  // ---------- the observed object ----------

  /** The methods of KeyValueObserverInterface over their fields.  values stands for
      getValueForKey; notified records the calls of receiveObserverNotify, in order. */
  class KeyValueObserver {
    const graph: Graph
    var observersInfo: Registry
    var values: Values
    var notified: seq<Event>

    constructor (graph: Graph, values: Values)
      ensures this.graph == graph && this.values == values
      ensures observersInfo == map[] && notified == []
    {
      this.graph, this.values := graph, values;
      observersInfo, notified := map[], [];
    }

    method WillChange(key: Key)
      modifies this`observersInfo
      ensures observersInfo == Will(old(observersInfo), values, key)
    {
      hide WillPairs, WillPair;
      if key !in observersInfo {
        return;
      }
      ghost var ps := observersInfo[key];
      var i := 0;
      while i < |observersInfo[key]|
        invariant key in observersInfo && |observersInfo[key]| == |ps| && i <= |ps|
        invariant observersInfo == old(observersInfo)[key := observersInfo[key]]
        invariant observersInfo[key][i..] == ps[i..]
        invariant observersInfo[key][..i] + WillPairs(ps[i..], values(key)) == WillPairs(ps, values(key))
      {
        var p := observersInfo[key][i];
        ghost var done := observersInfo[key][..i];
        assert p == ps[i..][0];
        WillPairsAt(ps, i, values(key));
        p := RecordOld(p, key);
        observersInfo := observersInfo[key := observersInfo[key][i := p]];
        assert observersInfo[key][..i + 1] == done + [p];
        i := i + 1;
      }
      WillPairsAt(ps, i, values(key));
      assert observersInfo[key] + [] == observersInfo[key][..i] + [];
      assert observersInfo[key] == WillPairs(ps, values(key));
    }

    // The body of that loop.
    method RecordOld(pair: Pair, key: Key) returns (p: Pair)
      ensures p == WillPair(pair, values(key))
    {
      p := pair;
      if p.enabled && p.wantsOld {
        p := p.(change := p.change.(oldValue := values(key)));
      }
    }

    // The loop over the observers of one key.
    method NotifyObservers(key: Key, kind: Kind, doCall: bool)
      requires key in observersInfo
      modifies this`observersInfo, this`notified
      ensures var (ps, e) := DidPairs(old(observersInfo)[key], key, values(key), kind, doCall);
              observersInfo == old(observersInfo)[key := ps] && notified == old(notified) + e
    {
      hide DidPair;
      ghost var ps := observersInfo[key];
      ghost var all := DidPairs(ps, key, values(key), kind, doCall);
      var i := 0;
      while i < |observersInfo[key]|
        invariant key in observersInfo && |observersInfo[key]| == |ps| && i <= |ps|
        invariant observersInfo == old(observersInfo)[key := observersInfo[key]]
        invariant observersInfo[key][i..] == ps[i..]
        invariant var (qs, e) := DidPairs(ps[i..], key, values(key), kind, doCall);
                  observersInfo[key][..i] + qs == all.0 && notified + e == old(notified) + all.1
      {
        ghost var (q, e) := DidPair(ps[i], key, values(key), kind, doCall);
        ghost var (qs, f) := DidPairs(ps[i + 1..], key, values(key), kind, doCall);
        ghost var done, sent := observersInfo[key][..i], notified;
        assert ps[i..][1..] == ps[i + 1..] && observersInfo[key][i] == ps[i];
        assert done + ([q] + qs) == (done + [q]) + qs;
        assert sent + (e + f) == (sent + e) + f;
        var p := NotifyObserver(observersInfo[key][i], key, kind, doCall);
        observersInfo := observersInfo[key := observersInfo[key][i := p]];
        assert observersInfo[key][..i + 1] == done + [p];
        i := i + 1;
      }
      assert observersInfo[key][..i] == observersInfo[key];
      assert notified + [] == notified && observersInfo[key] + [] == observersInfo[key];
    }

    // The body of that loop.
    method NotifyObserver(pair: Pair, key: Key, kind: Kind, doCall: bool) returns (p: Pair)
      modifies this`notified
      ensures var (q, e) := DidPair(pair, key, values(key), kind, doCall);
              p == q && notified == old(notified) + e
    {
      p := pair;
      if !p.enabled {
        return;
      }
      if p.wantsNew || !p.initialized {
        p := p.(change := p.change.(newValue := values(key)));
      }
      if p.wantsInit && !p.initialized {
        p := p.(initialized := true, change := p.change.(kind := Initialize));
        if doCall {
          notified := notified + [Event(p.observer, key, p.change)];
        }
      } else {
        p := p.(change := p.change.(kind := kind));
        if p.change.newValue != p.change.oldValue && doCall {
          notified := notified + [Event(p.observer, key, p.change)];
        }
      }
      p := p.(change := Reset);
      p := p.(change := p.change.(oldValue := p.change.newValue));
    }

    method DidChange(key: Key, kind: Kind, doCall: bool)
      requires Acyclic(graph)
      modifies this`observersInfo, this`notified
      ensures var (S, e) := Did(graph, old(observersInfo), values, key, kind, doCall);
              observersInfo == S && notified == old(notified) + e
      decreases Rank(graph, key), 1
    {
      hide Acyclic, DidPairs, DidAffected;
      if observersInfo == map[] {
        assert notified + [] == notified;
        return;
      }
      ghost var e := if key in observersInfo then DidPairs(observersInfo[key], key, values(key), kind, doCall).1 else [];
      if key in observersInfo {
        NotifyObservers(key, kind, doCall);
      }
      assert notified == old(notified) + e;
      ghost var f := DidAffected(graph, observersInfo, values, key, kind, 0).1;
      assert old(notified) + e + f == old(notified) + (e + f);
      NotifyAffected(key, kind);
    }

    // The loop over the keys that the changed key affects.
    method NotifyAffected(key: Key, kind: Kind)
      requires Acyclic(graph)
      modifies this`observersInfo, this`notified
      ensures var (S, e) := DidAffected(graph, old(observersInfo), values, key, kind, 0);
              observersInfo == S && notified == old(notified) + e
      decreases Rank(graph, key), 0
    {
      hide Acyclic, Did, Will;
      ghost var all := DidAffected(graph, observersInfo, values, key, kind, 0);
      var keyPaths := Affected(graph, key);
      var i := 0;
      while i < |keyPaths|
        invariant i <= |keyPaths|
        invariant var (S, e) := DidAffected(graph, observersInfo, values, key, kind, i);
                  S == all.0 && notified + e == old(notified) + all.1
      {
        ghost var before := notified;
        ghost var R := if kind == Initialize then Will(observersInfo, values, keyPaths[i]) else observersInfo;
        ghost var (U, e) := Did(graph, R, values, keyPaths[i], kind, true);
        ghost var (V, f) := DidAffected(graph, U, values, key, kind, i + 1);
        assert before + (e + f) == (before + e) + f;
        if kind == Initialize {
          WillChange(keyPaths[i]);
        }
        AffectedRank(graph, key, i);
        DidChange(keyPaths[i], kind, true);
        i := i + 1;
      }
      assert notified + [] == notified;
    }

    method RemoveObserver(observer: nat, key: Key)
      modifies this`observersInfo
      ensures observersInfo == Removed(old(observersInfo), observer, key)
    {
      if key !in observersInfo {
        return;
      }
      var ps := observersInfo[key];
      var i := 0;
      while i < |ps| && !Matches(ps[i], observer)
        invariant i <= |ps|
        invariant forall j :: 0 <= j < i ==> !Matches(ps[j], observer)
        invariant ps[..i] + Without(ps[i..], observer) == Without(ps, observer)
      {
        assert ps[i..][1..] == ps[i + 1..] && ps[..i + 1] == ps[..i] + [ps[i]];
        i := i + 1;
      }
      if i < |ps| {
        assert ps[i..][1..] == ps[i + 1..];
        observersInfo := observersInfo[key := ps[..i] + ps[i + 1..]];
        if observersInfo[key] == [] {
          observersInfo := observersInfo - {key};
        }
      }
    }

    // An earlier registration on the key is replaced, which must not erase the map entry
    // that the method goes on using.
    method AddObserver(observer: nat, key: Key, wantsNew: bool, wantsOld: bool, wantsInit: bool)
      requires Acyclic(graph) && MayAdd(observersInfo, observer, key)
      modifies this`observersInfo, this`notified
      ensures var (S, e) := Added(graph, old(observersInfo), values, Add(observer, key, wantsNew, wantsOld, wantsInit));
              observersInfo == S && notified == old(notified) + e
    {
      if key !in observersInfo {
        observersInfo := observersInfo[key := []];
      }
      RemoveObserver(observer, key);
      WithoutShorter(old(observersInfo), observer, key);
      var pair := Pair(observer, wantsNew, wantsOld, wantsInit, false, false, Reset);
      pair := pair.(enabled := true);
      observersInfo := observersInfo[key := observersInfo[key] + [pair]];
      ghost var op := Add(observer, key, wantsNew, wantsOld, wantsInit);
      assert observersInfo == Enlisted(Removed(old(observersInfo), observer, key), key, NewPair(op));
      WillChange(key);
      DidChange(key, Initialize, wantsInit);
    }

    // A caller changes the values between willChangeValueForKey and didChangeValueForKey.
    method ChangeValues(key: Key, after: Values)
      requires Acyclic(graph)
      modifies this
      ensures values == after
      ensures var (S, e) := Changed(graph, old(observersInfo), old(values), after, key);
              observersInfo == S && notified == old(notified) + e
    {
      WillChange(key);
      values := after;
      DidChange(key, New, true);
    }
  }
}
