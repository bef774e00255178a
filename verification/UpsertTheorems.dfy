/** The results about Object::create. */
module UpsertTheorems {
  import opened RealmModel
  import opened UpsertSpec
  import opened UpsertInvariant
  import opened UpsertFrame
  import opened UpsertReadBack
  import opened UpsertModes

  // ---------- 1. update_only_diff and full overwrite end in the same store ----------

  lemma DiffRefinesFull(sc: Schema, T: Tables, t: nat, v: Value, m: Mode, cur: Option<nat>)
    requires ValidSchema(sc) && Keyed(sc) && Typed(sc, T) && t < |sc| && Strict(m) && NoReturnOf(sc, t, v)
    ensures var full := Create(sc, T, t, v, m.(diff := false), None);
            var diff := Create(sc, T, t, v, m.(diff := true), cur);
            && diff.res == full.res
            && (full.res.Ok? ==> diff.tables == full.tables && diff.writes <= full.writes)
  {
    AgreeCreate(sc, T, t, v, m, None, cur);
  }

  // ---------- 2. upserting twice ----------

  lemma UpsertIsIdempotent(sc: Schema, T: Tables, t: nat, v: Value, m: Mode, cur: Option<nat>, again: Mode, cur': Option<nat>)
    requires ValidSchema(sc) && Keyed(sc) && Typed(sc, T) && t < |sc| && DistinctOf(sc, t, v)
    requires Strict(m) && again.tryUpdate
    requires Create(sc, T, t, v, m, cur).res.Ok?
    ensures var o := Create(sc, T, t, v, m, cur);
            var p := Create(sc, o.tables, t, v, again, cur');
            && p.res == o.res && p.tables == o.tables
            && (again.diff ==> p.writes == 0)
  {
    var o := Create(sc, T, t, v, m, cur);
    ReadCreate(sc, T, T, t, v, m, cur);
    NoOpCreate(sc, o.tables, T, t, v, again.(diff := true), cur', o.res.value);
    if !again.diff {
      CreateSafe(sc, T, t, v, m, None) by { CurIrrelevant(sc, T, t, v, m, cur); }
      CurIrrelevant(sc, T, t, v, m, cur);
      DistinctNoReturn(sc, t, v);
      AgreeCreate(sc, o.tables, t, v, again, cur', cur');
      assert again.(diff := false) == again;
    }
  }

  // With a primary key, and in full mode, the current row plays no part.
  lemma CurIrrelevant(sc: Schema, T: Tables, t: nat, v: Value, m: Mode, cur: Option<nat>)
    requires ValidSchema(sc) && (Keyed(sc) || !m.diff) && t < |sc|
    ensures Create(sc, T, t, v, m, cur) == Create(sc, T, t, v, m, None)
  {
  }

  // ---------- 3. the store invariant over whole runs ----------

  datatype Call =
    | CreateCall(t: nat, v: Value, m: Mode)
    | SetCall(a: Addr, x: Value, m: Mode)

  function Apply(sc: Schema, T: Tables, c: Call): Tables
    requires ValidSchema(sc)
  {
    match c
    case CreateCall(t, v, m) => if t < |sc| then Create(sc, T, t, v, m, None).tables else T
    case SetCall(a, x, m) => SetNamed(sc, T, a, x, m).tables
  }

  // The tables after a run of calls, each of which may also have failed midway.
  function Run(sc: Schema, T: Tables, calls: seq<Call>): Tables
    requires ValidSchema(sc)
    decreases |calls|
  {
    if calls == [] then T else Run(sc, Apply(sc, T, calls[0]), calls[1..])
  }

  function Fresh(sc: Schema): Tables {
    seq(|sc|, t requires 0 <= t < |sc| => [])
  }

  // A call that cannot give a row the primary key of another: a create outside a migration
  // or with try_update, and a set that in addition, in a migration, is not of a primary key.
  predicate GuardsKeys(sc: Schema, c: Call) {
    Strict(c.m) && (c.SetCall? && c.m.migrating && c.a.t < |sc| ==> sc[c.a.t].primary != Some(c.a.c))
  }

  lemma ApplySafe(sc: Schema, T: Tables, c: Call)
    requires ValidSchema(sc) && Typed(sc, T)
    ensures Typed(sc, Apply(sc, T, c)) && Grows(T, Apply(sc, T, c))
    ensures c.CreateCall? || GuardsKeys(sc, c) ==> KeepsKeys(sc, T, Apply(sc, T, c))
    ensures GuardsKeys(sc, c) && UniqueKeys(sc, T) ==> UniqueKeys(sc, Apply(sc, T, c))
  {
    hide Populate, SetProp, UniqueKeys;
    match c
    case CreateCall(t, v, m) =>
      if t < |sc| {
        CreateSafe(sc, T, t, v, m, None);
      }
    case SetCall(a, x, m) =>
      if Has(T, a) && a.t < |sc| && a.c < |sc[a.t].props| {
        assert ValidType(sc, sc[a.t]) && ValidProp(sc, sc[a.t].props[a.c].typ);
        if sc[a.t].primary != Some(a.c) {
          SetPropSafe(sc, T, a, x, m.(diff := false));
        } else if m.migrating {
          var v := Dict(map[sc[a.t].props[a.c].name := x]);
          SetKey(sc, T, a, v, x, m.(diff := false));
        }
      }
  }

  lemma {:induction false} StoreInvariant(sc: Schema, T: Tables, calls: seq<Call>)
    requires ValidSchema(sc) && Typed(sc, T)
    ensures Typed(sc, Run(sc, T, calls))
    ensures UniqueKeys(sc, T) && (forall i :: 0 <= i < |calls| ==> GuardsKeys(sc, calls[i])) ==> UniqueKeys(sc, Run(sc, T, calls))
    decreases |calls|
  {
    hide UniqueKeys, Typed, GuardsKeys, Apply;
    if calls != [] {
      ApplySafe(sc, T, calls[0]);
      StoreInvariant(sc, Apply(sc, T, calls[0]), calls[1..]);
    }
  }

  // From an empty Realm: links and list entries never dangle, and no two rows of a table
  // ever have the same primary key unless a migration makes them.
  lemma StoreInvariantFromEmpty(sc: Schema, calls: seq<Call>)
    requires ValidSchema(sc)
    ensures Typed(sc, Run(sc, Fresh(sc), calls))
    ensures (forall i :: 0 <= i < |calls| ==> GuardsKeys(sc, calls[i])) ==> UniqueKeys(sc, Run(sc, Fresh(sc), calls))
  {
    hide Run, GuardsKeys;
    assert Typed(sc, Fresh(sc));
    assert UniqueKeys(sc, Fresh(sc));
    StoreInvariant(sc, Fresh(sc), calls);
  }

  // ---------- 4. read back, frame and growth ----------

  // Old rows whose key is not in the tree are untouched, and old rows of types without a
  // key always; the object reads back, one with a key being the one that a later lookup
  // finds, and one without being a new row.
  lemma UpsertReadsBack(sc: Schema, T: Tables, t: nat, v: Value, m: Mode, cur: Option<nat>)
    requires ValidSchema(sc) && Typed(sc, T) && t < |sc| && Tracked(sc, m) && DistinctOf(sc, t, v)
    ensures var o := Create(sc, T, t, v, m, cur);
            && Frame(sc, T, o.tables, KeysOf(sc, t, v))
            && (o.res.Ok? ==> HoldsObj(sc, o.tables, T, t, v, o.res.value))
  {
    CreateFrame(sc, T, t, v, m, cur);
    ReadCreate(sc, T, T, t, v, m, cur);
    assert {} + KeysOf(sc, t, v) == KeysOf(sc, t, v);
  }

  // An object of a type with neither key nor properties is made from any value.
  predicate Bare(sc: Schema, e: Elem)
    requires e.Object? ==> e.target < |sc|
  {
    e.Object? && sc[e.target] == ObjectType([], None)
  }

  lemma HoldsDict(sc: Schema, T: Tables, B: Tables, t: nat, v: Value, r: nat)
    requires ValidSchema(sc) && t < |sc| && HoldsObj(sc, T, B, t, v, r)
    ensures v.Dict? || sc[t] == ObjectType([], None)
  {
    assert ValidType(sc, sc[t]);
  }

  // What HoldsObj means for a caller who reads property i with get_property_value.
  lemma ReadProperty(sc: Schema, T: Tables, B: Tables, t: nat, v: Value, r: nat, i: nat)
    requires ValidSchema(sc) && t < |sc| && i < |sc[t].props| && HoldsObj(sc, T, B, t, v, r)
    requires v.Dict? && sc[t].props[i].name in v.fields
    ensures ValidType(sc, sc[t]) && ValidProp(sc, sc[t].props[i].typ)
    ensures var p := sc[t].props[i].typ;
            var x := v.fields[sc[t].props[i].name];
            var got := GetProperty(sc, T, Addr(t, r, i));
            && (x.Null? && p.Single? ==> got == Null)
            && (x.Plain? ==> got == x || Bare(sc, p.elem))
            && (x.RowBox? && p.Single? ==> p.elem.Object? && got == RowBox(p.elem.target, x.row))
            && (x.Dict? ==> p == Single(p.elem, true) && p.elem.Object? && got.RowBox?
                            && got.table == p.elem.target && HoldsObj(sc, T, B, got.table, x, got.row))
            && (x.Vec? ==> p.Single? || (got == ListBox(Addr(t, r, i))
                                         && |ItemsAt(T, Addr(t, r, i))| == |x.elems|))
            && (x.Vec? ==> p.Array? || Bare(sc, p.elem))
  {
    hide UniqueKeys, Typed;
    assert ValidType(sc, sc[t]) && ValidProp(sc, sc[t].props[i].typ);
    if sc[t].primary == Some(i) {
      assert ValidKey(sc[t].props[i].typ);
      var k := KeyFor(sc[t], v).value;
      assert KeyAt(sc, T, t, r) == k;
    } else {
      HoldsAt(sc, T, B, t, r, v, 0, i);
      var p, x := sc[t].props[i].typ, v.fields[sc[t].props[i].name];
      if p.Single? && p.elem.Object? && !x.Null? && !x.RowBox? {
        HoldsDict(sc, T, B, p.elem.target, x, CellAt(T, Addr(t, r, i)).item.row);
      }
    }
  }

  lemma {:induction false} HoldsAt(sc: Schema, T: Tables, B: Tables, t: nat, r: nat, v: Value, j: nat, i: nat)
    requires ValidSchema(sc) && t < |sc| && j <= i < |sc[t].props| && HoldsFrom(sc, T, B, t, r, v, j)
    requires v.Dict? && sc[t].props[i].name in v.fields && sc[t].primary != Some(i)
    ensures ValidType(sc, sc[t]) && ValidProp(sc, sc[t].props[i].typ)
    ensures HoldsVal(sc, T, B, Addr(t, r, i), sc[t].props[i].typ, v.fields[sc[t].props[i].name])
    decreases i - j
  {
    assert ValidType(sc, sc[t]) && ValidProp(sc, sc[t].props[j].typ);
    if j < i {
      HoldsAt(sc, T, B, t, r, v, j + 1, i);
    }
  }

  // ... and list entry k.
  lemma {:induction false} ReadItem(sc: Schema, T: Tables, B: Tables, e: Elem, x: Value, items: seq<Item>, j: nat, k: nat)
    requires ValidSchema(sc) && (e.Object? ==> e.target < |sc|)
    requires x.Vec? && j <= k < |x.elems| <= |items| && HoldsElems(sc, T, B, e, x, items, j)
    ensures var y := x.elems[k];
            var got := GetItem(e, items[k]);
            && (y.RowBox? ==> got == y)
            && (y.Plain? ==> got == y || Bare(sc, e))
            && (y.Dict? ==> e.Object? && got.RowBox? && HoldsObj(sc, T, B, e.target, y, got.row))
    decreases k - j
  {
    if j < k {
      ReadItem(sc, T, B, e, x, items, j + 1, k);
    } else if e.Object? && !x.elems[k].RowBox? {
      HoldsDict(sc, T, B, e.target, x.elems[k], items[k].row);
    }
  }

  // The keys present in the first n rows of table t.
  function Present(sc: Schema, T: Tables, t: nat, n: nat): set<Cell>
    requires n <= Size(T, t)
  {
    set r | 0 <= r < n :: KeyAt(sc, T, t, r)
  }

  function KeysIn(K: set<Key>, t: nat): set<Cell> {
    set q | q in K && q.Key? && q.t == t :: q.k
  }

  lemma {:induction false} PresentCount(sc: Schema, T: Tables, t: nat, n: nat)
    requires t < |sc| && sc[t].primary.Some? && UniqueKeys(sc, T) && n <= Size(T, t)
    ensures |Present(sc, T, t, n)| == n
  {
    if n > 0 {
      PresentCount(sc, T, t, n - 1);
      assert Present(sc, T, t, n) == Present(sc, T, t, n - 1) + {KeyAt(sc, T, t, n - 1)};
      assert KeyAt(sc, T, t, n - 1) !in Present(sc, T, t, n - 1);
    }
  }

  // Each table of a type with a key grows by exactly the tree keys that it lacked.
  lemma UpsertGrowth(sc: Schema, T: Tables, t: nat, v: Value, m: Mode, cur: Option<nat>, u: nat)
    requires ValidSchema(sc) && Typed(sc, T) && UniqueKeys(sc, T) && t < |sc| && u < |sc| && sc[u].primary.Some?
    requires Tracked(sc, m) && Create(sc, T, t, v, m, cur).res.Ok?
    ensures var U := Create(sc, T, t, v, m, cur).tables;
            Size(U, u) == Size(T, u) + |KeysIn(KeysOf(sc, t, v), u) - Present(sc, T, u, Size(T, u))|
  {
    CurIrrelevant(sc, T, t, v, m, cur);
    CreateSafe(sc, T, t, v, m, None);
    CreateFrame(sc, T, t, v, m, cur);
    var U := Create(sc, T, t, v, m, cur).tables;
    var K := KeysOf(sc, t, v);
    var before, after := Present(sc, T, u, |T[u]|), Present(sc, U, u, |U[u]|);
    PresentCount(sc, T, u, |T[u]|);
    PresentCount(sc, U, u, |U[u]|);
    CoveredKeys(sc, T, U, K, u);
    assert after == before + (KeysIn(K, u) - before);
  }

  lemma CoveredKeys(sc: Schema, T: Tables, U: Tables, K: set<Key>, u: nat)
    requires |T| == |sc| && u < |sc| && sc[u].primary.Some? && Frame(sc, T, U, {} + K) && Covers(sc, U, K)
    ensures Present(sc, U, u, |U[u]|) == Present(sc, T, u, |T[u]|) + KeysIn(K, u)
  {
    var before, after := Present(sc, T, u, |T[u]|), Present(sc, U, u, |U[u]|);
    forall k | k in after ensures k in before + KeysIn(K, u) {
      var r :| 0 <= r < |U[u]| && KeyAt(sc, U, u, r) == k;
      if r < |T[u]| {
        assert KeyAt(sc, T, u, r) == k;
      } else {
        assert Key(u, k) in {} + K;
      }
    }
    forall k | k in before ensures k in after {
      var r :| 0 <= r < |T[u]| && KeyAt(sc, T, u, r) == k;
      assert KeyAt(sc, U, u, r) == k;
    }
    forall k | k in KeysIn(K, u) ensures k in after {
      assert Key(u, k) in K;
      var f := FindFirst(sc, U, u, k);
      assert f.Some? && KeyAt(sc, U, u, f.value) == k;
    }
  }
}
