/** What an observer hears over whole runs of registrations, removals and changes: how often
    a key is notified through the dependency relation, and whether the values told are the
    key's history. */
module KeyValueHistories {
  import opened KeyValueObserving

  // ---------- what one observer of one key hears ----------

  // The new values told to an observer about a key, in order.
  function Heard(es: seq<Event>, o: nat, k: Key): seq<Any> {
    if es == [] then []
    else (if es[0].observer == o && es[0].key == k then [es[0].change.newValue] else []) + Heard(es[1..], o, k)
  }

  lemma {:induction false} HeardConcat(es: seq<Event>, fs: seq<Event>, o: nat, k: Key)
    ensures Heard(es + fs, o, k) == Heard(es, o, k) + Heard(fs, o, k)
  {
    if es == [] {
      assert es + fs == fs;
    } else {
      assert (es + fs)[1..] == es[1..] + fs;
      HeardConcat(es[1..], fs, o, k);
    }
  }

  function Count(ks: seq<Key>, d: Key): nat {
    if ks == [] then 0 else (if ks[0] == d then 1 else 0) + Count(ks[1..], d)
  }

  lemma {:induction false} CountConcat(ks: seq<Key>, ls: seq<Key>, d: Key)
    ensures Count(ks + ls, d) == Count(ks, d) + Count(ls, d)
  {
    if ks == [] {
      assert ks + ls == ls;
    } else {
      assert (ks + ls)[1..] == ks[1..] + ls;
      CountConcat(ks[1..], ls, d);
    }
  }

  // p is in ps, and its observer is there once.
  predicate Once(ps: seq<Pair>, p: Pair) {
    && p in ps
    && forall i, j :: 0 <= i < j < |ps| && ps[i].observer == p.observer ==> ps[j].observer != p.observer
  }

  // p is told current values of d: it asked for new ones, or for no initial notice, since
  // then it never counts as initialized.  No other registration on d is for its observer.
  predicate Listens(R: Registry, d: Key, p: Pair) {
    d in R && Once(R[d], p) && p.enabled && (p.wantsNew || !p.initialized)
  }

  lemma {:induction false} NobodyHears(ps: seq<Pair>, k: Key, before: Any, after: Any, kind: Kind, o: nat, d: Key)
    requires k != d || forall i :: 0 <= i < |ps| ==> ps[i].observer != o
    ensures Heard(NoticesOf(ps, k, before, after, kind), o, d) == []
  {
    if ps != [] {
      NobodyHears(ps[1..], k, before, after, kind, o, d);
      HeardConcat(NoticeOf(ps[0], k, before, after, kind), NoticesOf(ps[1..], k, before, after, kind), o, d);
    }
  }

  lemma {:induction false} OneHears(ps: seq<Pair>, i: nat, k: Key, before: Any, after: Any, kind: Kind)
    requires i < |ps| && ps[i].enabled && (ps[i].wantsNew || !ps[i].initialized)
    requires forall j :: 0 <= j < |ps| && j != i ==> ps[j].observer != ps[i].observer
    ensures Heard(NoticesOf(ps, k, before, after, kind), ps[i].observer, k)
         == if after != OldValue(ps[i], before) then [after] else []
  {
    var o := ps[i].observer;
    HeardConcat(NoticeOf(ps[0], k, before, after, kind), NoticesOf(ps[1..], k, before, after, kind), o, k);
    if i == 0 {
      NobodyHears(ps[1..], k, before, after, kind, o, k);
    } else {
      OneHears(ps[1..], i - 1, k, before, after, kind);
    }
  }

  // What a listener of d hears when the observers of k are told.
  lemma HeardAt(R: Registry, k: Key, before: Any, after: Any, kind: Kind, d: Key, p: Pair)
    requires Listens(R, d, p)
    ensures Heard(NoticesAt(R, k, before, after, kind), p.observer, d)
         == if k == d && after != OldValue(p, before) then [after] else []
  {
    if k == d {
      var i :| 0 <= i < |R[d]| && R[d][i] == p;
      OneHears(R[d], i, d, before, after, kind);
    } else if k in R {
      NobodyHears(R[k], k, before, after, kind, p.observer, d);
    }
  }

  function Times(v: Any, n: nat): seq<Any> {
    seq(n, _ => v)
  }

  lemma {:induction false} VisitsHeard(R: Registry, vals: Values, ks: seq<Key>, kind: Kind, d: Key, p: Pair)
    requires Listens(R, d, p)
    ensures Heard(Notices(R, vals, ks, kind), p.observer, d)
         == Times(vals(d), if vals(d) == OldValue(p, if kind == Initialize then vals(d) else Nil) then 0 else Count(ks, d))
  {
    if ks != [] {
      VisitsHeard(R, vals, ks[1..], kind, d, p);
      var before := if kind == Initialize then vals(ks[0]) else Nil;
      var here := NoticesAt(R, ks[0], before, vals(ks[0]), kind);
      HeardConcat(here, Notices(R, vals, ks[1..], kind), p.observer, d);
      HeardAt(R, ks[0], before, vals(ks[0]), kind, d, p);
    }
  }

  // A change never comes back to its own key.
  lemma {:induction false} VisitsDescend(g: Graph, k: Key, i: nat, d: Key)
    requires Acyclic(g) && i <= |Affected(g, k)| && Rank(g, k) <= Rank(g, d)
    ensures Count(VisitsFrom(g, k, i), d) == 0
    decreases Rank(g, k), |Affected(g, k)| - i
  {
    if i < |Affected(g, k)| {
      var a := Affected(g, k)[i];
      VisitsDescend(g, a, 0, d);
      VisitsDescend(g, k, i + 1, d);
      assert Visits(g, a)[1..] == VisitsFrom(g, a, 0);
      CountConcat(Visits(g, a), VisitsFrom(g, k, i + 1), d);
    }
  }

  // ---------- paths through the dependency relation ----------

  // The path that takes the p[0]-th affected key of k, then the p[1]-th of that, ... is at d.
  ghost predicate Leads(g: Graph, k: Key, p: seq<nat>, d: Key)
    decreases |p|
  {
    if p == [] then k == d
    else p[0] < |Affected(g, k)| && Leads(g, Affected(g, k)[p[0]], p[1..], d)
  }

  ghost predicate TwoPaths(g: Graph, k: Key, d: Key) {
    exists p, q :: p != q && Leads(g, k, p, d) && Leads(g, k, q, d)
  }

  lemma {:induction false} CountFrom(g: Graph, k: Key, d: Key, i: nat, j: nat)
    requires Acyclic(g) && i <= j < |Affected(g, k)|
    ensures Count(VisitsFrom(g, k, i), d)
         >= Count(Visits(g, Affected(g, k)[j]), d) + Count(VisitsFrom(g, k, j + 1), d)
    decreases j - i
  {
    CountConcat(Visits(g, Affected(g, k)[i]), VisitsFrom(g, k, i + 1), d);
    if i < j {
      CountFrom(g, k, d, i + 1, j);
    }
  }

  lemma {:induction false} PathCounts(g: Graph, k: Key, p: seq<nat>, d: Key)
    requires Acyclic(g) && Leads(g, k, p, d)
    ensures Count(Visits(g, k), d) >= 1
    decreases |p|
  {
    assert Visits(g, k)[1..] == VisitsFrom(g, k, 0);
    if p != [] {
      PathCounts(g, Affected(g, k)[p[0]], p[1..], d);
      CountFrom(g, k, d, 0, p[0]);
    }
  }

  lemma {:induction false} PathsCount(g: Graph, k: Key, p: seq<nat>, q: seq<nat>, d: Key)
    requires Acyclic(g) && p != q && Leads(g, k, p, d) && Leads(g, k, q, d)
    ensures Count(Visits(g, k), d) >= 2
    decreases |p| + |q|
  {
    assert Visits(g, k)[1..] == VisitsFrom(g, k, 0);
    if q == [] || (p != [] && q[0] < p[0]) {
      PathsCount2(g, k, q, p, d);
    } else {
      PathsCount2(g, k, p, q, d);
    }
  }

  lemma {:induction false} PathsCount2(g: Graph, k: Key, p: seq<nat>, q: seq<nat>, d: Key)
    requires Acyclic(g) && p != q && Leads(g, k, p, d) && Leads(g, k, q, d)
    requires q != [] && (p == [] || p[0] <= q[0])
    ensures Count(Visits(g, k), d) >= 2
    decreases |p| + |q|, 0
  {
    assert Visits(g, k)[1..] == VisitsFrom(g, k, 0);
    PathCounts(g, Affected(g, k)[q[0]], q[1..], d);
    if p == [] {
      CountFrom(g, k, d, 0, q[0]);
    } else {
      CountFrom(g, k, d, 0, p[0]);
      if p[0] < q[0] {
        PathCounts(g, Affected(g, k)[p[0]], p[1..], d);
        CountFrom(g, k, d, p[0] + 1, q[0]);
      } else {
        assert p == [p[0]] + p[1..] && q == [q[0]] + q[1..];
        PathsCount(g, Affected(g, k)[p[0]], p[1..], q[1..], d);
      }
    }
  }

  lemma {:induction false} FirstBranch(g: Graph, k: Key, d: Key, i: nat) returns (j: nat)
    requires Acyclic(g) && i <= |Affected(g, k)| && Count(VisitsFrom(g, k, i), d) >= 1
    ensures i <= j < |Affected(g, k)|
    ensures Count(Visits(g, Affected(g, k)[j]), d) >= 1
    ensures Count(VisitsFrom(g, k, i), d)
         == Count(Visits(g, Affected(g, k)[j]), d) + Count(VisitsFrom(g, k, j + 1), d)
    decreases |Affected(g, k)| - i
  {
    CountConcat(Visits(g, Affected(g, k)[i]), VisitsFrom(g, k, i + 1), d);
    if Count(Visits(g, Affected(g, k)[i]), d) >= 1 {
      j := i;
    } else {
      j := FirstBranch(g, k, d, i + 1);
    }
  }

  lemma {:induction false} SomePath(g: Graph, k: Key, d: Key) returns (p: seq<nat>)
    requires Acyclic(g) && Count(Visits(g, k), d) >= 1
    ensures Leads(g, k, p, d)
    decreases Rank(g, k)
  {
    assert Visits(g, k)[1..] == VisitsFrom(g, k, 0);
    if k == d {
      p := [];
    } else {
      var j := FirstBranch(g, k, d, 0);
      var r := SomePath(g, Affected(g, k)[j], d);
      p := [j] + r;
    }
  }

  lemma {:induction false} SomePaths(g: Graph, k: Key, d: Key) returns (p: seq<nat>, q: seq<nat>)
    requires Acyclic(g) && Count(Visits(g, k), d) >= 2
    ensures p != q && Leads(g, k, p, d) && Leads(g, k, q, d)
    decreases Rank(g, k)
  {
    assert Visits(g, k)[1..] == VisitsFrom(g, k, 0);
    var j := FirstBranch(g, k, d, 0);
    var a := Affected(g, k)[j];
    if k == d {
      var r := SomePath(g, a, d);
      p, q := [], [j] + r;
    } else if Count(Visits(g, a), d) >= 2 {
      var r, s := SomePaths(g, a, d);
      p, q := [j] + r, [j] + s;
      assert p[1..] == r && q[1..] == s;
    } else {
      var i := FirstBranch(g, k, d, j + 1);
      var r := SomePath(g, a, d);
      var s := SomePath(g, Affected(g, k)[i], d);
      p, q := [j] + r, [i] + s;
      assert p[0] != q[0];
    }
  }

  // ---------- what one operation tells one listener ----------

  // How many dependency paths lead from k to another key d.
  ghost function Paths(g: Graph, k: Key, d: Key): nat
    requires Acyclic(g)
  {
    Count(VisitsFrom(g, k, 0), d)
  }

  lemma LeadsCounts(g: Graph, k: Key, q: seq<nat>, d: Key)
    requires Acyclic(g) && k != d && Leads(g, k, q, d)
    ensures Paths(g, k, d) > 0
  {
    PathCounts(g, k, q, d);
    assert Visits(g, k)[0] == k && Visits(g, k)[1..] == VisitsFrom(g, k, 0);
  }

  // A change tells its own key's listeners once, if the value differs from the old value
  // they asked for; those of an affected key once for every path to it, if it is not nil.
  lemma ChangeHeard(g: Graph, R: Registry, before: Values, after: Values, k: Key, d: Key, p: Pair)
    requires Acyclic(g) && Quiescent(R) && Listens(R, d, p)
    ensures Changed(g, R, before, after, k).0 == R
    ensures Heard(Changed(g, R, before, after, k).1, p.observer, d)
         == if d == k then (if after(k) != OldValue(p, before(k)) then [after(k)] else [])
            else Times(after(d), if after(d) == Nil then 0 else Paths(g, k, d))
  {
    var ks := VisitsFrom(g, k, 0);
    DidDelivers(g, R, before, after, k, New);
    HeardConcat(NoticesAt(R, k, before(k), after(k), New), Notices(R, after, ks, New), p.observer, d);
    VisitsHeard(R, after, ks, New, d, p);
    HeardAt(R, k, before(k), after(k), New, d, p);
    if d == k {
      VisitsDescend(g, k, 0, k);
    }
  }

  // One change notifies a listener of an affected key more than once exactly when the key
  // has a value and depends on the changed key along two different paths.
  lemma MoreThanOnceIff(g: Graph, R: Registry, before: Values, after: Values, k: Key, d: Key, p: Pair)
    requires Acyclic(g) && Quiescent(R) && Listens(R, d, p) && d != k
    ensures |Heard(Changed(g, R, before, after, k).1, p.observer, d)| > 1
       <==> after(d) != Nil && TwoPaths(g, k, d)
  {
    ChangeHeard(g, R, before, after, k, d, p);
    assert Visits(g, k)[1..] == VisitsFrom(g, k, 0);
    if Count(Visits(g, k), d) >= 2 {
      var q, r := SomePaths(g, k, d);
    }
    if TwoPaths(g, k, d) {
      var q, r :| q != r && Leads(g, k, q, d) && Leads(g, k, r, d);
      PathsCount(g, k, q, r, d);
    }
  }

  // Every change of k notifies a listener of d at most once, if and only if no two paths
  // lead from k to d.
  lemma AtMostOnceIff(g: Graph, R: Registry, k: Key, d: Key, p: Pair)
    requires Acyclic(g) && Quiescent(R) && Listens(R, d, p) && d != k
    ensures (forall before: Values, after: Values :: |Heard(Changed(g, R, before, after, k).1, p.observer, d)| <= 1)
       <==> !TwoPaths(g, k, d)
  {
    forall before: Values, after: Values
      ensures |Heard(Changed(g, R, before, after, k).1, p.observer, d)| > 1 <==> after(d) != Nil && TwoPaths(g, k, d)
    {
      MoreThanOnceIff(g, R, before, after, k, d, p);
    }
    var one: Values := _ => Val(1);
    MoreThanOnceIff(g, R, one, one, k, d, p);
  }

  // A diamond: b and c depend on a, and d on both.
  function Diamond(): Graph {
    Graph(map["a" := ["b", "c"], "b" := ["d"], "c" := ["d"]], map["a" := 2, "b" := 1, "c" := 1])
  }

  lemma DiamondPaths()
    ensures Acyclic(Diamond()) && TwoPaths(Diamond(), "a", "d")
  {
    var g := Diamond();
    assert Affected(g, "a") == ["b", "c"] && Affected(g, "b") == ["d"] && Affected(g, "c") == ["d"];
    assert Leads(g, "d", [], "d");
    assert [0, 0][1..] == [0] && [1, 0][1..] == [0] && [0][1..] == [];
    assert Leads(g, "b", [0], "d") && Leads(g, "c", [0], "d");
    assert Leads(g, "a", [0, 0], "d") && Leads(g, "a", [1, 0], "d");
    assert [0, 0][0] != [1, 0][0];
  }

  lemma DiamondNotifiesTwice(R: Registry, before: Values, after: Values, p: Pair)
    requires Quiescent(R) && Listens(R, "d", p) && after("d") != Nil
    ensures Acyclic(Diamond()) && |Heard(Changed(Diamond(), R, before, after, "a").1, p.observer, "d")| > 1
  {
    DiamondPaths();
    MoreThanOnceIff(Diamond(), R, before, after, "a", "d", p);
  }

  // ---------- histories ----------

  // Operations that leave the registration of p on d alone.
  predicate Spares(op: Op, d: Key, p: Pair) {
    op.Add? || op.Remove? ==> op.key != d || op.observer != p.observer
  }

  ghost predicate AllSpare(ops: seq<Op>, d: Key, p: Pair) {
    forall i :: 0 <= i < |ops| ==> Spares(ops[i], d, p)
  }

  lemma OneLess(ps: seq<Pair>, i: nat)
    requires i + 1 < |ps|
    ensures [ps[0]] + (ps[1..][..i] + ps[1..][i + 1..]) == ps[..i + 1] + ps[i + 2..]
  {
  }

  lemma {:induction false} WithoutIs(ps: seq<Pair>, observer: nat) returns (i: nat)
    ensures i <= |ps| && forall j :: 0 <= j < i ==> !Matches(ps[j], observer)
    ensures i == |ps| ==> Without(ps, observer) == ps
    ensures i < |ps| ==> Matches(ps[i], observer) && Without(ps, observer) == ps[..i] + ps[i + 1..]
  {
    hide Matches;
    if ps == [] || Matches(ps[0], observer) {
      i := 0;
    } else {
      i := WithoutIs(ps[1..], observer);
      if i < |ps[1..]| {
        OneLess(ps, i);
      }
      assert forall j :: 0 < j < i + 1 ==> ps[j] == ps[1..][j - 1];
      i := i + 1;
    }
  }

  lemma OnceWithout(ps: seq<Pair>, p: Pair, o: nat)
    requires Once(ps, p) && p.observer != o
    ensures Once(Without(ps, o), p)
  {
    hide Without;
    var i := WithoutIs(ps, o);
    if i < |ps| {
      var qs := ps[..i] + ps[i + 1..];
      var j :| 0 <= j < |ps| && ps[j] == p;
      assert qs[if j < i then j else j - 1] == p;
      assert forall m :: 0 <= m < |qs| ==> qs[m] == ps[if m < i then m else m + 1];
    }
  }

  lemma OnceMore(ps: seq<Pair>, p: Pair, q: Pair)
    requires Once(ps, p) && p.observer != q.observer
    ensures Once(ps + [q], p)
  {
  }

  lemma StillListens(R: Registry, d: Key, p: Pair, op: Op)
    requires Listens(R, d, p) && (op.Add? || op.Remove?) && Spares(op, d, p)
    ensures var S := Removed(R, op.observer, op.key);
            Listens(S, d, p) && (op.Add? ==> Listens(Enlisted(S, op.key, Settled(NewPair(op))), d, p))
  {
    hide Without, Once;
    var S := Removed(R, op.observer, op.key);
    if op.key == d {
      OnceWithout(R[d], p, op.observer);
      OnceSome(Without(R[d], op.observer), p);
      if op.Add? {
        OnceMore(S[d], p, Settled(NewPair(op)));
      }
    }
  }

  lemma OnceSome(ps: seq<Pair>, p: Pair)
    requires Once(ps, p)
    ensures ps != []
  {
  }

  // How often an operation tells listener p of key d the value that d has after it.
  ghost function Tells(g: Graph, p: Pair, d: Key, op: Op, before: Values): nat
    requires Acyclic(g)
  {
    match op
    case Bracket(k, after) =>
      if k == d then (if after(d) != OldValue(p, before(d)) then 1 else 0)
      else if after(d) == Nil then 0 else Paths(g, k, d)
    case Add(_, k, _, _, wantsInit) =>
      if before(d) == OldValue(p, before(d)) then 0
      else if k == d then (if wantsInit then 1 else 0) else Paths(g, k, d)
    case Remove(_, _) => 0
  }

  function After(op: Op, before: Values): Values {
    if op.Bracket? then op.after else before
  }

  lemma StepHeard(g: Graph, R: Registry, before: Values, op: Op, d: Key, p: Pair)
    requires Acyclic(g) && Quiescent(R) && Listens(R, d, p) && Spares(op, d, p)
    ensures var (S, e) := Apply(g, R, before, op);
            && Quiescent(S) && Listens(S, d, p)
            && Heard(e, p.observer, d) == Times(After(op, before)(d), Tells(g, p, d, op, before))
  {
    match op
    case Bracket(k, after) => ChangeHeard(g, R, before, after, k, d, p);
    case Remove(o, k) =>
      RemovedQuiet(R, o, k);
      StillListens(R, d, p, op);
    case Add(_, _, _, _, _) => AddHeard(g, R, before, op, d, p);
  }

  lemma AddHeard(g: Graph, R: Registry, vals: Values, op: Op, d: Key, p: Pair)
    requires Acyclic(g) && Quiescent(R) && Listens(R, d, p) && Spares(op, d, p) && op.Add?
    ensures var (S, e) := Added(g, R, vals, op);
            && Quiescent(S) && Listens(S, d, p)
            && Heard(e, p.observer, d) == Times(vals(d), Tells(g, p, d, op, vals))
  {
    hide Did, Will, Notices, NoticesAt, Heard, Listens, Removed, Enlisted;
    AddedDelivers(g, R, vals, op);
    StillListens(R, d, p, op);
    var k, v := op.key, vals(op.key);
    var others := Removed(R, op.observer, k);
    var S := Enlisted(others, k, Settled(NewPair(op)));
    var at := NoticesAt(others, k, v, v, Initialize);
    var own := [Event(op.observer, k, Change(Initialize, OldValue(NewPair(op), v), v))];
    var more := Notices(S, vals, VisitsFrom(g, k, 0), Initialize);
    HeardAt(others, k, v, v, Initialize, d, p);
    NotMine(own[0], p.observer, d);
    VisitsHeard(S, vals, VisitsFrom(g, k, 0), Initialize, d, p);
    HeardConcat(at, own, p.observer, d);
    HeardConcat(if op.wantsInit then at + own else [], more, p.observer, d);
    NothingHeard(p.observer, d);
    if k == d {
      VisitsDescend(g, k, 0, k);
    }
  }

  lemma NotMine(e: Event, o: nat, d: Key)
    requires e.observer != o || e.key != d
    ensures Heard([e], o, d) == []
  {
  }

  lemma NothingHeard(o: nat, d: Key)
    ensures Heard([], o, d) == []
  {
  }

  // What p hears in a run, operation by operation.
  ghost function Told(g: Graph, vals: Values, ops: seq<Op>, d: Key, p: Pair): seq<Any>
    requires Acyclic(g)
  {
    if ops == [] then []
    else
      var init := ops[..|ops| - 1];
      var before := ValuesAfter(vals, init);
      Told(g, vals, init, d, p)
        + Times(ValuesAfter(vals, ops)(d), Tells(g, p, d, ops[|ops| - 1], before))
  }

  lemma {:induction false} RunHeard(g: Graph, R: Registry, vals: Values, ops: seq<Op>, d: Key, p: Pair)
    requires Acyclic(g) && Quiescent(R) && Listens(R, d, p) && AllSpare(ops, d, p)
    ensures Quiescent(Run(g, R, vals, ops).0) && Listens(Run(g, R, vals, ops).0, d, p)
    ensures Heard(Run(g, R, vals, ops).1, p.observer, d) == Told(g, vals, ops, d, p)
  {
    hide Listens, Quiescent, Acyclic, Apply, Tells;
    if ops == [] {
      NothingHeard(p.observer, d);
    } else {
      var init, op := ops[..|ops| - 1], ops[|ops| - 1];
      var before := ValuesAfter(vals, init);
      RunHeard(g, R, vals, init, d, p);
      var (S, e) := Run(g, R, vals, init);
      StepHeard(g, S, before, op, d, p);
      HeardConcat(e, Apply(g, S, before, op).1, p.observer, d);
      assert ValuesAfter(vals, ops) == After(op, before);
    }
  }

  // The values that d has in a run: at the start and after every operation.
  function Series(vals: Values, ops: seq<Op>, d: Key): seq<Any> {
    if ops == [] then [vals(d)]
    else Series(vals, ops[..|ops| - 1], d) + [ValuesAfter(vals, ops)(d)]
  }

  function WithoutRepeats(s: seq<Any>): seq<Any> {
    if |s| <= 1 then s
    else
      var n := |s| - 1;
      WithoutRepeats(s[..n]) + if s[n] == s[n - 1] then [] else [s[n]]
  }

  // The value of d changes only in a bracket of d or of a key that d depends on.
  ghost predicate StepExplained(g: Graph, op: Op, before: Values, d: Key)
    requires Acyclic(g)
  {
    op.Bracket? && op.after(d) != before(d) ==> op.key == d || Paths(g, op.key, d) > 0
  }

  ghost predicate Explained(g: Graph, vals: Values, ops: seq<Op>, d: Key)
    requires Acyclic(g)
  {
    ops != [] ==>
      var init := ops[..|ops| - 1];
      Explained(g, vals, init, d) && StepExplained(g, ops[|ops| - 1], ValuesAfter(vals, init), d)
  }

  // The operation tells p the new value of d if and only if there is one.  A change of d
  // itself does if p asked for old values, or if the new value is nil just when it is the
  // old one.  A change of a key that d depends on does if d is and stays nil, or if it
  // takes a new value and there is one path.  A registration does if p asked for old
  // values, if d is nil, or if it notifies nobody on d.
  ghost predicate StepFaithful(g: Graph, p: Pair, d: Key, op: Op, before: Values)
    requires Acyclic(g)
  {
    match op
    case Bracket(k, after) =>
      if k == d then p.wantsOld || (after(d) == Nil <==> after(d) == before(d))
      else || Paths(g, k, d) == 0
           || (after(d) == Nil && before(d) == Nil)
           || (Paths(g, k, d) == 1 && after(d) != Nil && after(d) != before(d))
    case Add(_, k, _, _, wantsInit) =>
      p.wantsOld || before(d) == Nil || (if k == d then !wantsInit else Paths(g, k, d) == 0)
    case Remove(_, _) => true
  }

  ghost predicate AllFaithful(g: Graph, vals: Values, ops: seq<Op>, d: Key, p: Pair)
    requires Acyclic(g)
  {
    ops != [] ==>
      var init := ops[..|ops| - 1];
      AllFaithful(g, vals, init, d, p) && StepFaithful(g, p, d, ops[|ops| - 1], ValuesAfter(vals, init))
  }

  function Changes(op: Op, before: Values, d: Key): nat {
    if After(op, before)(d) == before(d) then 0 else 1
  }

  lemma StepCounts(g: Graph, p: Pair, d: Key, op: Op, before: Values)
    requires Acyclic(g) && StepExplained(g, op, before, d)
    ensures var n, m, x := Tells(g, p, d, op, before), Changes(op, before, d), After(op, before)(d);
            (StepFaithful(g, p, d, op, before) <==> n == m) && (if x == Nil then n <= m else m <= n)
  {
  }

  function Nils(s: seq<Any>): nat {
    multiset(s)[Nil]
  }

  lemma {:induction false} NilsTimes(x: Any, n: nat)
    ensures Nils(Times(x, n)) == if x == Nil then n else 0
  {
    if n > 0 {
      NilsTimes(x, n - 1);
      assert Times(x, n) == Times(x, n - 1) + [x];
    }
  }

  // One more step of two histories: h is told n times what w has m times.
  lemma Extend(h: seq<Any>, w: seq<Any>, x: Any, n: nat, m: nat)
    requires Nils(h) <= Nils(w) && (Nils(h) == Nils(w) ==> |h| >= |w|)
    requires if x == Nil then n <= m else m <= n
    ensures var h', w' := h + Times(x, n), w + Times(x, m);
            && Nils(h') <= Nils(w') && (Nils(h') == Nils(w') ==> |h'| >= |w'|)
            && (h' == w' <==> h == w && n == m)
  {
    var h', w' := h + Times(x, n), w + Times(x, m);
    NilsTimes(x, n);
    NilsTimes(x, m);
    assert Nils(h') == Nils(h) + Nils(Times(x, n));
    assert Nils(w') == Nils(w) + Nils(Times(x, m));
    if h' == w' {
      assert n == m && |h| == |w|;
      assert h == h'[..|h|] && w == w'[..|w|];
    }
  }

  lemma SeriesLast(vals: Values, ops: seq<Op>, d: Key)
    ensures Series(vals, ops, d) != []
    ensures Series(vals, ops, d)[|Series(vals, ops, d)| - 1] == ValuesAfter(vals, ops)(d)
  {
  }

  lemma SeriesStep(vals: Values, ops: seq<Op>, d: Key)
    requires ops != []
    ensures var init, op := ops[..|ops| - 1], ops[|ops| - 1];
            WithoutRepeats(Series(vals, ops, d))
            == WithoutRepeats(Series(vals, init, d))
               + Times(ValuesAfter(vals, ops)(d), Changes(op, ValuesAfter(vals, init), d))
  {
    var init, s := ops[..|ops| - 1], Series(vals, ops, d);
    SeriesLast(vals, init, d);
    assert s[..|s| - 1] == Series(vals, init, d);
    assert ValuesAfter(vals, ops) == After(ops[|ops| - 1], ValuesAfter(vals, init));
    assert WithoutRepeats(s) == WithoutRepeats(s[..|s| - 1]) + if s[|s| - 1] == s[|s| - 2] then [] else [s[|s| - 1]];
  }

  lemma {:induction false} ToldIsHistory(g: Graph, vals: Values, ops: seq<Op>, d: Key, p: Pair)
    requires Acyclic(g) && Explained(g, vals, ops, d)
    ensures var h, w := [vals(d)] + Told(g, vals, ops, d, p), WithoutRepeats(Series(vals, ops, d));
            && Nils(h) <= Nils(w) && (Nils(h) == Nils(w) ==> |h| >= |w|)
            && (h == w <==> AllFaithful(g, vals, ops, d, p))
  {
    hide Acyclic, Tells, StepFaithful, StepExplained, Series, WithoutRepeats, Nils, Times;
    if ops == [] {
      SeriesStart(vals, d);
      assert [vals(d)] + [] == [vals(d)];
    } else {
      var init, op := ops[..|ops| - 1], ops[|ops| - 1];
      var before := ValuesAfter(vals, init);
      var x := ValuesAfter(vals, ops)(d);
      var n, m := Tells(g, p, d, op, before), Changes(op, before, d);
      var told := Told(g, vals, init, d, p);
      ToldIsHistory(g, vals, init, d, p);
      StepCounts(g, p, d, op, before);
      SeriesStep(vals, ops, d);
      Extend([vals(d)] + told, WithoutRepeats(Series(vals, init, d)), x, n, m);
      assert [vals(d)] + (told + Times(x, n)) == ([vals(d)] + told) + Times(x, n);
    }
  }

  lemma SeriesStart(vals: Values, d: Key)
    ensures WithoutRepeats(Series(vals, [], d)) == [vals(d)]
  {
  }

  // What p hears of d in the run is the history of d without repeats.
  ghost predicate Faithful(g: Graph, R: Registry, vals: Values, ops: seq<Op>, d: Key, p: Pair)
    requires Acyclic(g)
  {
    [vals(d)] + Heard(Run(g, R, vals, ops).1, p.observer, d) == WithoutRepeats(Series(vals, ops, d))
  }

  // Any run through which p stays registered and d changes only where it may.
  ghost predicate Proper(g: Graph, R: Registry, vals: Values, ops: seq<Op>, d: Key, p: Pair)
    requires Acyclic(g)
  {
    AllAllowed(g, R, vals, ops) && AllSpare(ops, d, p) && Explained(g, vals, ops, d)
  }

  // In a run a listener hears the history of its key without repeats, if and only if every
  // single operation tells it neither too little nor too much.
  lemma HistoryHeard(g: Graph, R: Registry, vals: Values, ops: seq<Op>, d: Key, p: Pair)
    requires Acyclic(g) && Quiescent(R) && Listens(R, d, p) && Proper(g, R, vals, ops, d, p)
    ensures Faithful(g, R, vals, ops, d, p) <==> AllFaithful(g, vals, ops, d, p)
  {
    RunHeard(g, R, vals, ops, d, p);
    ToldIsHistory(g, vals, ops, d, p);
  }

  // No other key leads to d.
  ghost predicate Independent(g: Graph, d: Key) {
    forall k: Key, q: seq<nat> :: k != d ==> !Leads(g, k, q, d)
  }

  // A listener hears the history of its key without repeats in every run, if and only if it
  // asked for old values and its key depends on no other.
  lemma FaithfulIff(g: Graph, R: Registry, d: Key, p: Pair)
    requires Acyclic(g) && Quiescent(R) && Listens(R, d, p)
    ensures p.wantsOld && Independent(g, d)
       <==> forall vals: Values, ops: seq<Op> :: Proper(g, R, vals, ops, d, p) ==> Faithful(g, R, vals, ops, d, p)
  {
    hide Acyclic, Quiescent, Listens, Proper, Faithful, Leads;
    if p.wantsOld && Independent(g, d) {
      forall vals: Values, ops: seq<Op> | Proper(g, R, vals, ops, d, p) ensures Faithful(g, R, vals, ops, d, p) {
        IndependentFaithful(g, vals, ops, d, p);
        HistoryHeard(g, R, vals, ops, d, p);
      }
    } else if !p.wantsOld {
      RepeatFails(g, R, d, d, p);
    } else {
      var k: Key, q: seq<nat> :| k != d && Leads(g, k, q, d);
      LeadsCounts(g, k, q, d);
      RepeatFails(g, R, k, d, p);
    }
  }

  lemma {:induction false} IndependentFaithful(g: Graph, vals: Values, ops: seq<Op>, d: Key, p: Pair)
    requires Acyclic(g) && p.wantsOld && Independent(g, d)
    ensures AllFaithful(g, vals, ops, d, p)
  {
    hide Acyclic, Independent;
    if ops != [] {
      var op := ops[|ops| - 1];
      IndependentFaithful(g, vals, ops[..|ops| - 1], d, p);
      if op.Bracket? && op.key != d {
        NoPaths(g, op.key, d);
      }
    }
  }

  lemma NoPaths(g: Graph, k: Key, d: Key)
    requires Acyclic(g) && Independent(g, d) && k != d
    ensures Paths(g, k, d) == 0
  {
    assert Visits(g, k)[0] == k && Visits(g, k)[1..] == VisitsFrom(g, k, 0);
    if Paths(g, k, d) > 0 {
      var q := SomePath(g, k, d);
    }
  }

  // A bracket of k that changes nothing, with a value at d: the listener is told all the same.
  lemma RepeatFails(g: Graph, R: Registry, k: Key, d: Key, p: Pair)
    requires Acyclic(g) && Quiescent(R) && Listens(R, d, p)
    requires if k == d then !p.wantsOld else Paths(g, k, d) > 0
    ensures exists vals: Values, ops: seq<Op> :: Proper(g, R, vals, ops, d, p) && !Faithful(g, R, vals, ops, d, p)
  {
    var one: Values := _ => Val(1);
    var ops := [Bracket(k, one)];
    assert ops[..0] == [];
    assert Explained(g, one, ops[..0], d) && AllAllowed(g, R, one, ops[..0]) && AllFaithful(g, one, ops[..0], d, p);
    assert ValuesAfter(one, ops[..0]) == one;
    assert !StepFaithful(g, p, d, ops[0], one);
    assert Proper(g, R, one, ops, d, p);
    HistoryHeard(g, R, one, ops, d, p);
  }
}
