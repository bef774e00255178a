/** update_only_diff changes how much is written, not what the store ends up as. */
module UpsertModes {
  import opened RealmModel
  import opened UpsertSpec
  import opened UpsertInvariant
  import opened UpsertFrame
  import opened UpsertReadBack

  // ---------- a cell of a row outside the tree makes no difference to an upsert ----------

  predicate Apart(a: Addr, b: Addr) {
    a.t != b.t || a.r != b.r
  }

  // The outcome o, but in tables where cell a is x.
  function Patched<R>(o: Out<R>, a: Addr, x: Cell): Out<R> {
    o.(tables := Put(o.tables, a, x))
  }

  lemma PutSwap(T: Tables, a: Addr, x: Cell, b: Addr, y: Cell)
    requires Apart(a, b)
    ensures Put(Put(T, a, x), b, y) == Put(Put(T, b, y), a, x)
  {
    var P, Q := Put(Put(T, a, x), b, y), Put(Put(T, b, y), a, x);
    if Has(T, a) && Has(T, b) {
      assert P[a.t] == Q[a.t];
      assert P[b.t] == Q[b.t];
      assert P == Q;
    }
  }

  lemma PutGet(T: Tables, a: Addr, x: Cell)
    requires Has(T, a)
    ensures CellAt(Put(T, a, x), a) == x
  {
  }

  lemma PutReads(T: Tables, a: Addr, x: Cell, b: Addr)
    requires Apart(a, b)
    ensures CellAt(Put(T, a, x), b) == CellAt(T, b) && ItemsAt(Put(T, a, x), b) == ItemsAt(T, b)
    ensures forall t :: Size(Put(T, a, x), t) == Size(T, t)
  {
  }

  lemma PutKeys(sc: Schema, T: Tables, a: Addr, x: Cell, t: nat, k: Cell)
    requires a.t < |sc| && sc[a.t].primary != Some(a.c)
    ensures FindFirst(sc, Put(T, a, x), t, k) == FindFirst(sc, T, t, k)
  {
    var U := Put(T, a, x);
    assert forall r :: KeyAt(sc, U, t, r) == KeyAt(sc, T, t, r);
    var f, g := FindFirst(sc, U, t, k), FindFirst(sc, T, t, k);
    if f.Some? {
      assert KeyAt(sc, T, t, f.value) == k;
    }
    if g.Some? {
      assert KeyAt(sc, U, t, g.value) == k;
    }
  }

  lemma AddRowPut(sc: Schema, T: Tables, a: Addr, x: Cell, t: nat)
    requires Has(T, a)
    ensures AddRow(sc, Put(T, a, x), t) == Put(AddRow(sc, T, t), a, x)
  {
    var P, Q := AddRow(sc, Put(T, a, x), t), Put(AddRow(sc, T, t), a, x);
    if t < |T| && t < |sc| {
      assert P[t] == Q[t];
      assert P[a.t] == Q[a.t];
      assert P == Q;
    }
  }

  lemma {:induction false} CommuteCreate(sc: Schema, T: Tables, a: Addr, z: Cell, t: nat, v: Value, m: Mode, cur: Option<nat>)
    requires Slot(sc, T, a) && Keyed(sc) && Strict(m) && t < |sc|
    requires Owner(sc, T, a) !! KeysOf(sc, t, v)
    ensures Create(sc, Put(T, a, z), t, v, m, cur) == Patched(Create(sc, T, t, v, m, cur), a, z)
    decreases v, 2, 0
  {
    hide Frame, Typed, SetProp, AddRow, CellOk, KeysFrom, CellAt;
    assert ValidType(sc, sc[t]);
    if KeyFor(sc[t], v).Ok? {
      var k := KeyFor(sc[t], v).value;
      assert Key(t, k) in OwnKey(sc, t, v);
      var (U, r) := Entered(sc, T, t, k);
      EnteredFrame(sc, T, t, v);
      SlotStays(sc, T, U, a, {Key(t, k)});
      PutKeys(sc, T, a, z, t, k);
      AddRowPut(sc, T, a, z, t);
      var b := Addr(t, r, sc[t].primary.value);
      assert KeyAt(sc, T, a.t, a.r) == KeyAt(sc, U, a.t, a.r);
      assert Apart(a, b);
      PutSwap(AddRow(sc, T, t), a, z, b, k);
      CommutePopulate(sc, U, a, z, t, r, v, m, FindFirst(sc, T, t, k).None?, 0);
    }
  }

  lemma {:induction false} CommutePopulate(sc: Schema, T: Tables, a: Addr, z: Cell, t: nat, r: nat, v: Value, m: Mode, created: bool, i: nat)
    requires Slot(sc, T, a) && Keyed(sc) && Strict(m) && t < |sc| && r < Size(T, t) && i <= |sc[t].props|
    requires (t != a.t || r != a.r) && Owner(sc, T, a) !! KeysFrom(sc, t, v, i)
    requires Owner(sc, T, a) != Owner(sc, T, Addr(t, r, i))
    ensures Populate(sc, Put(T, a, z), t, r, v, m, created, true, i) == Patched(Populate(sc, T, t, r, v, m, created, true, i), a, z)
    decreases v, 1, |sc[t].props| - i, 1
  {
    hide Frame, Put, CellAt, SetProp, RowOk;
    if i < |sc[t].props| {
      var p := sc[t].props[i];
      assert ValidType(sc, sc[t]) && ValidProp(sc, p.typ);
      if sc[t].primary == Some(i) || Lookup(v, p.name) == Ok(None) {
        CommutePopulate(sc, T, a, z, t, r, v, m, created, i + 1);
      } else if Lookup(v, p.name).Ok? {
        var x := Lookup(v, p.name).value.value;
        if !(x.Null? && Required(p.typ)) {
          CommutePresent(sc, T, a, z, t, r, v, m, created, i, x);
        }
      }
    }
  }

  lemma {:induction false} CommutePresent(sc: Schema, T: Tables, a: Addr, z: Cell, t: nat, r: nat, v: Value, m: Mode, created: bool, i: nat, x: Value)
    requires Slot(sc, T, a) && Keyed(sc) && Strict(m) && t < |sc| && r < Size(T, t) && i < |sc[t].props|
    requires sc[t].primary != Some(i) && Lookup(v, sc[t].props[i].name) == Ok(Some(x))
    requires !(x.Null? && Required(sc[t].props[i].typ))
    requires (t != a.t || r != a.r) && Owner(sc, T, a) !! KeysFrom(sc, t, v, i)
    requires Owner(sc, T, a) != Owner(sc, T, Addr(t, r, i))
    ensures Populate(sc, Put(T, a, z), t, r, v, m, created, true, i) == Patched(Populate(sc, T, t, r, v, m, created, true, i), a, z)
    decreases v, 1, |sc[t].props| - i, 0
  {
    hide Frame, Put, CellAt, SetProp, CellOk, Populate;
    var p, b := sc[t].props[i], Addr(t, r, i);
    PopulateSets(sc, T, t, r, v, m, created, i, x);
    PopulateSets(sc, Put(T, a, z), t, r, v, m, created, i, x);
    assert RowOk(T, sc[t], T[t][r]);
    CommuteSetProp(sc, T, a, z, b, x, m);
    SetPropFrame(sc, T, b, x, m);
    var o := SetProp(sc, T, b, p.typ, x, m);
    if o.res.Ok? {
      var K := Owner(sc, T, b) + KeysVal(sc, p.typ, x);
      SlotStays(sc, T, o.tables, a, K);
      SlotStays(sc, T, o.tables, b, K);
      CommutePopulate(sc, o.tables, a, z, t, r, v, m, created, i + 1);
    }
  }

  lemma {:induction false} CommuteSetProp(sc: Schema, T: Tables, a: Addr, z: Cell, b: Addr, x: Value, m: Mode)
    requires Slot(sc, T, a) && Keyed(sc) && Slot(sc, T, b) && Apart(a, b) && Strict(m)
    requires Owner(sc, T, a) !! KeysVal(sc, TypeOf(sc, b), x) && Owner(sc, T, a) != Owner(sc, T, b)
    ensures SetProp(sc, Put(T, a, z), b, TypeOf(sc, b), x, m) == Patched(SetProp(sc, T, b, TypeOf(sc, b), x, m), a, z)
    decreases x, 5, 0
  {
    hide RowOk, Put, CellAt, Resolve, Assign, KeyAt;
    var p := TypeOf(sc, b);
    PutReads(T, a, z, b);
    if p.Array? {
      CommuteAssign(sc, T, a, z, b, x, m);
    } else if p.nullable && x.Null? {
      PutSwap(T, a, z, b, Empty);
    } else {
      var o := Resolve(sc, T, p.elem, x, m, LinkAt(T, b), false);
      CommuteResolve(sc, T, a, z, p.elem, x, m, LinkAt(T, b), false);
      if o.res.Ok? {
        PutSwap(o.tables, a, z, b, One(o.res.value));
      }
    }
  }

  lemma {:induction false} CommuteResolve(sc: Schema, T: Tables, a: Addr, z: Cell, e: Elem, x: Value, m: Mode, cur: Option<nat>, inList: bool)
    requires Slot(sc, T, a) && Keyed(sc) && Strict(m) && (e.Object? ==> e.target < |sc|)
    requires Owner(sc, T, a) !! KeysItem(sc, e, x)
    ensures Resolve(sc, Put(T, a, z), e, x, m, cur, inList) == Patched(Resolve(sc, T, e, x, m, cur, inList), a, z)
    decreases x, 3, 0
  {
    hide Typed, Create;
    if e.Object? && !x.RowBox? {
      CommuteCreate(sc, T, a, z, e.target, x, m, cur);
    }
  }

  lemma {:induction false} CommuteAssign(sc: Schema, T: Tables, a: Addr, z: Cell, b: Addr, x: Value, m: Mode)
    requires Slot(sc, T, a) && Keyed(sc) && Slot(sc, T, b) && Apart(a, b) && Strict(m) && TypeOf(sc, b).Array?
    requires Owner(sc, T, a) !! KeysVal(sc, TypeOf(sc, b), x) && Owner(sc, T, a) != Owner(sc, T, b)
    ensures Assign(sc, Put(T, a, z), b, TypeOf(sc, b).elem, x, m) == Patched(Assign(sc, T, b, TypeOf(sc, b).elem, x, m), a, z)
    decreases x, 4, 0
  {
    hide Frame, RowOk, Put, CellAt, AssignFrom;
    var e := TypeOf(sc, b).elem;
    var n := |ItemsAt(T, b)|;
    PutReads(T, a, z, b);
    PutSwap(T, a, z, b, Many([]));
    if x != ListBox(b) && x.Vec? {
      if m.diff {
        CommuteAssignFrom(sc, T, a, z, b, x, 0, n, m);
        CommuteRemoveTail(sc, AssignFrom(sc, T, b, e, x, 0, n, m).tables, a, z, b, |x.elems|, n);
      } else {
        var U := Put(T, b, Many([]));
        PutSafe(sc, T, b, Many([]), true);
        PutFrame(sc, T, b, Many([]), Owner(sc, T, b));
        SlotStays(sc, T, U, a, Owner(sc, T, b));
        SlotStays(sc, T, U, b, Owner(sc, T, b));
        CommuteAssignFrom(sc, U, a, z, b, x, 0, 0, m);
      }
    }
  }

  lemma {:induction false} CommuteAssignFrom(sc: Schema, T: Tables, a: Addr, z: Cell, b: Addr, x: Value, k: nat, sz: nat, m: Mode)
    requires Slot(sc, T, a) && Keyed(sc) && Slot(sc, T, b) && Apart(a, b) && Strict(m) && TypeOf(sc, b).Array? && x.Vec? && k <= |x.elems|
    requires Owner(sc, T, a) !! KeysElems(sc, TypeOf(sc, b).elem, x, k) && Owner(sc, T, a) != Owner(sc, T, b)
    ensures var e := TypeOf(sc, b).elem;
            AssignFrom(sc, Put(T, a, z), b, e, x, k, sz, m) == Patched(AssignFrom(sc, T, b, e, x, k, sz, m), a, z)
    decreases x, 0, |x.elems| - k
  {
    hide Frame, RowOk, Put, CellAt, Resolve, SetIfDifferent, Add;
    var e := TypeOf(sc, b).elem;
    if k < |x.elems| {
      var y := x.elems[k];
      var o := if k < sz then SetIfDifferent(sc, T, b, e, y, k, m) else Add(sc, T, b, e, y, m);
      if k < sz {
        CommuteSetIfDifferent(sc, T, a, z, b, y, k, m);
        SetIfDifferentFrame(sc, T, b, y, k, m);
      } else {
        CommuteAdd(sc, T, a, z, b, y, m);
        AddFrame(sc, T, b, y, m);
      }
      if o.res.Ok? {
        var K := Owner(sc, T, b) + KeysItem(sc, e, y);
        SlotStays(sc, T, o.tables, a, K);
        SlotStays(sc, T, o.tables, b, K);
        CommuteAssignFrom(sc, o.tables, a, z, b, x, k + 1, sz, m);
      }
    }
  }

  lemma {:induction false} CommuteSetIfDifferent(sc: Schema, T: Tables, a: Addr, z: Cell, b: Addr, y: Value, k: nat, m: Mode)
    requires Slot(sc, T, a) && Keyed(sc) && Slot(sc, T, b) && Apart(a, b) && Strict(m) && TypeOf(sc, b).Array?
    requires Owner(sc, T, a) !! KeysItem(sc, TypeOf(sc, b).elem, y)
    ensures var e := TypeOf(sc, b).elem;
            SetIfDifferent(sc, Put(T, a, z), b, e, y, k, m) == Patched(SetIfDifferent(sc, T, b, e, y, k, m), a, z)
    decreases y, 4, 0
  {
    hide Frame, RowOk, Put, CellAt, Resolve, Replace;
    var e := TypeOf(sc, b).elem;
    var items := ItemsAt(T, b);
    PutReads(T, a, z, b);
    if k < |items| {
      var cur := if items[k].Ref? then Some(items[k].row) else None;
      var o := Resolve(sc, T, e, y, m.(diff := true), cur, true);
      CommuteResolve(sc, T, a, z, e, y, m.(diff := true), cur, true);
      SwapReplace(o, a, z, b, k, items[k]);
    }
  }

  lemma SwapReplace(o: Out<Item>, a: Addr, z: Cell, b: Addr, k: nat, was: Item)
    requires Apart(a, b)
    ensures Replace(Patched(o, a, z), b, k, was) == Patched(Replace(o, b, k, was), a, z)
  {
    hide Put, CellAt;
    PutReads(o.tables, a, z, b);
    if o.res.Ok? && k < |ItemsAt(o.tables, b)| {
      PutSwap(o.tables, a, z, b, Many(ItemsAt(o.tables, b)[k := o.res.value]));
    }
  }

  lemma {:induction false} CommuteAdd(sc: Schema, T: Tables, a: Addr, z: Cell, b: Addr, y: Value, m: Mode)
    requires Slot(sc, T, a) && Keyed(sc) && Slot(sc, T, b) && Apart(a, b) && Strict(m) && TypeOf(sc, b).Array?
    requires Owner(sc, T, a) !! KeysItem(sc, TypeOf(sc, b).elem, y)
    ensures var e := TypeOf(sc, b).elem;
            Add(sc, Put(T, a, z), b, e, y, m) == Patched(Add(sc, T, b, e, y, m), a, z)
    decreases y, 4, 0
  {
    hide Frame, RowOk, Put, CellAt, Resolve;
    var e := TypeOf(sc, b).elem;
    var o := Resolve(sc, T, e, y, m.(diff := false), None, true);
    CommuteResolve(sc, T, a, z, e, y, m.(diff := false), None, true);
    PutReads(o.tables, a, z, b);
    if o.res.Ok? {
      PutSwap(o.tables, a, z, b, Many(ItemsAt(o.tables, b) + [o.res.value]));
    }
  }

  lemma {:induction false} CommuteRemoveTail(sc: Schema, T: Tables, a: Addr, z: Cell, b: Addr, index: nat, sz: nat)
    requires Apart(a, b)
    ensures RemoveTail(Put(T, a, z), b, index, sz) == Patched(RemoveTail(T, b, index, sz), a, z)
    decreases sz
  {
    var items := ItemsAt(T, b);
    PutReads(T, a, z, b);
    if index < sz && sz - 1 < |items| {
      var y := Many(items[..sz - 1] + items[sz..]);
      PutSwap(T, a, z, b, y);
      CommuteRemoveTail(sc, Put(T, b, y), a, z, b, index, sz - 1);
    }
  }

  // ---------- no key comes back inside its own subtree ----------

  // Weaker than DistinctOf: the same key may occur in different branches of the tree.
  predicate NoReturnOf(sc: Schema, t: nat, v: Value)
    requires ValidSchema(sc) && Keyed(sc) && t < |sc|
    decreases v, 2, 0
  {
    OwnKey(sc, t, v) !! KeysFrom(sc, t, v, 0) && NoReturnFrom(sc, t, v, 0)
  }

  predicate NoReturnFrom(sc: Schema, t: nat, v: Value, i: nat)
    requires ValidSchema(sc) && Keyed(sc) && t < |sc| && i <= |sc[t].props|
    decreases v, 1, |sc[t].props| - i
  {
    if i == |sc[t].props| then true
    else if sc[t].primary == Some(i) then NoReturnFrom(sc, t, v, i + 1)
    else
      assert ValidType(sc, sc[t]) && ValidProp(sc, sc[t].props[i].typ);
      match Lookup(v, sc[t].props[i].name)
      case Ok(Some(x)) => NoReturnVal(sc, sc[t].props[i].typ, x) && NoReturnFrom(sc, t, v, i + 1)
      case Ok(None) => NoReturnFrom(sc, t, v, i + 1)
      case Err(_) => true
  }

  predicate NoReturnVal(sc: Schema, p: PropType, x: Value)
    requires ValidSchema(sc) && Keyed(sc) && ValidProp(sc, p)
    decreases x, 4, 0
  {
    match p
    case Single(e, _) => x.Null? || NoReturnItem(sc, e, x)
    case Array(e) => x.Vec? ==> NoReturnElems(sc, e, x, 0)
  }

  predicate NoReturnItem(sc: Schema, e: Elem, x: Value)
    requires ValidSchema(sc) && Keyed(sc) && (e.Object? ==> e.target < |sc|)
    decreases x, 3, 0
  {
    e.Object? && !x.RowBox? ==> NoReturnOf(sc, e.target, x)
  }

  predicate NoReturnElems(sc: Schema, e: Elem, x: Value, k: nat)
    requires ValidSchema(sc) && Keyed(sc) && (e.Object? ==> e.target < |sc|) && x.Vec? && k <= |x.elems|
    decreases x, 0, |x.elems| - k
  {
    k < |x.elems| ==> NoReturnItem(sc, e, x.elems[k]) && NoReturnElems(sc, e, x, k + 1)
  }

  lemma {:induction false} DistinctNoReturn(sc: Schema, t: nat, v: Value)
    requires ValidSchema(sc) && Keyed(sc) && t < |sc| && DistinctOf(sc, t, v)
    ensures NoReturnOf(sc, t, v)
    decreases v, 2, 0
  {
    DistinctNoReturnFrom(sc, t, v, 0);
  }

  lemma {:induction false} DistinctNoReturnFrom(sc: Schema, t: nat, v: Value, i: nat)
    requires ValidSchema(sc) && Keyed(sc) && t < |sc| && i <= |sc[t].props| && DistinctFrom(sc, t, v, i)
    ensures NoReturnFrom(sc, t, v, i)
    decreases v, 1, |sc[t].props| - i
  {
    if i < |sc[t].props| {
      assert ValidType(sc, sc[t]) && ValidProp(sc, sc[t].props[i].typ);
      if sc[t].primary == Some(i) || Lookup(v, sc[t].props[i].name).Ok? {
        DistinctNoReturnFrom(sc, t, v, i + 1);
        if sc[t].primary != Some(i) && Lookup(v, sc[t].props[i].name).value.Some? {
          DistinctNoReturnVal(sc, sc[t].props[i].typ, Lookup(v, sc[t].props[i].name).value.value);
        }
      }
    }
  }

  lemma {:induction false} DistinctNoReturnVal(sc: Schema, p: PropType, x: Value)
    requires ValidSchema(sc) && Keyed(sc) && ValidProp(sc, p) && DistinctVal(sc, p, x)
    ensures NoReturnVal(sc, p, x)
    decreases x, 4, 0
  {
    if p.Array? {
      if x.Vec? {
        DistinctNoReturnElems(sc, p.elem, x, 0);
      }
    } else if p.elem.Object? && !x.RowBox? && !x.Null? {
      DistinctNoReturn(sc, p.elem.target, x);
    }
  }

  lemma {:induction false} DistinctNoReturnElems(sc: Schema, e: Elem, x: Value, k: nat)
    requires ValidSchema(sc) && Keyed(sc) && (e.Object? ==> e.target < |sc|)
    requires x.Vec? && k <= |x.elems| && DistinctElems(sc, e, x, k)
    ensures NoReturnElems(sc, e, x, k)
    decreases x, 0, |x.elems| - k
  {
    if k < |x.elems| {
      if e.Object? && !x.elems[k].RowBox? {
        DistinctNoReturn(sc, e.target, x.elems[k]);
      }
      DistinctNoReturnElems(sc, e, x, k + 1);
    }
  }

  // ---------- the list that is being assigned, while its elements are resolved ----------

  lemma AddStays(sc: Schema, T: Tables, a: Addr, y: Value, m: Mode)
    requires Slot(sc, T, a) && Keyed(sc) && TypeOf(sc, a).Array? && Strict(m) && CellAt(T, a).Many?
    requires Owner(sc, T, a) !! KeysItem(sc, TypeOf(sc, a).elem, y)
    ensures var o := Add(sc, T, a, TypeOf(sc, a).elem, y, m);
            o.res.Ok? ==>
              CellAt(o.tables, a).Many? && |ItemsAt(o.tables, a)| == |ItemsAt(T, a)| + 1
  {
    hide Frame, RowOk, Resolve;
    ResolveStays(sc, T, a, TypeOf(sc, a).elem, y, m.(diff := false), None, true);
  }

  lemma {:induction false} AddsStay(sc: Schema, T: Tables, a: Addr, x: Value, k: nat, m: Mode)
    requires Slot(sc, T, a) && Keyed(sc) && TypeOf(sc, a).Array? && Strict(m) && x.Vec? && k <= |x.elems|
    requires CellAt(T, a).Many? && |ItemsAt(T, a)| == k
    requires Owner(sc, T, a) !! KeysElems(sc, TypeOf(sc, a).elem, x, k)
    ensures var o := AssignFrom(sc, T, a, TypeOf(sc, a).elem, x, k, 0, m);
            o.res.Ok? ==> CellAt(o.tables, a).Many? && |ItemsAt(o.tables, a)| == |x.elems|
    decreases |x.elems| - k
  {
    hide Frame, RowOk, Add;
    if k < |x.elems| {
      var e := TypeOf(sc, a).elem;
      var o := Add(sc, T, a, e, x.elems[k], m);
      AddFrame(sc, T, a, x.elems[k], m);
      AddStays(sc, T, a, x.elems[k], m);
      if o.res.Ok? {
        SlotStays(sc, T, o.tables, a, Owner(sc, T, a) + KeysItem(sc, e, x.elems[k]));
        AddsStay(sc, o.tables, a, x, k + 1, m);
      }
    }
  }

  // ---------- full overwrite and update_only_diff ----------

  // The same result (also the same failure), and on success the same tables, with no
  // more writes in diff mode than in full mode.
  predicate Agree<R(==)>(full: Out<R>, diff: Out<R>) {
    full.res == diff.res && (full.res.Ok? ==> full.tables == diff.tables && diff.writes <= full.writes)
  }

  lemma {:induction false} AgreeCreate(sc: Schema, T: Tables, t: nat, v: Value, m: Mode, curF: Option<nat>, curD: Option<nat>)
    requires ValidSchema(sc) && Keyed(sc) && Typed(sc, T) && t < |sc| && Strict(m)
    requires NoReturnOf(sc, t, v)
    ensures Agree(Create(sc, T, t, v, m.(diff := false), curF), Create(sc, T, t, v, m.(diff := true), curD))
    decreases v, 2, 0
  {
    hide Frame, Typed, Populate;
    assert ValidType(sc, sc[t]);
    if KeyFor(sc[t], v).Ok? {
      var k := KeyFor(sc[t], v).value;
      var (U, r) := Entered(sc, T, t, k);
      EnteredFrame(sc, T, t, v);
      AgreePopulate(sc, U, t, r, v, m, FindFirst(sc, T, t, k).None?, 0);
    }
  }

  lemma {:induction false} AgreePopulate(sc: Schema, T: Tables, t: nat, r: nat, v: Value, m: Mode, created: bool, i: nat)
    requires ValidSchema(sc) && Keyed(sc) && Typed(sc, T) && t < |sc| && Strict(m)
    requires r < Size(T, t) && i <= |sc[t].props|
    requires Key(t, KeyAt(sc, T, t, r)) !in KeysFrom(sc, t, v, i) && NoReturnFrom(sc, t, v, i)
    ensures Agree(Populate(sc, T, t, r, v, m.(diff := false), created, true, i),
                  Populate(sc, T, t, r, v, m.(diff := true), created, true, i))
    decreases v, 1, |sc[t].props| - i
  {
    hide Frame, SetProp;
    if i < |sc[t].props| {
      var p := sc[t].props[i];
      assert ValidType(sc, sc[t]) && ValidProp(sc, p.typ);
      if sc[t].primary == Some(i) || Lookup(v, p.name) == Ok(None) {
        AgreePopulate(sc, T, t, r, v, m, created, i + 1);
      } else if Lookup(v, p.name).Ok? {
        var x := Lookup(v, p.name).value.value;
        if !(x.Null? && Required(p.typ)) {
          var a := Addr(t, r, i);
          assert RowOk(T, sc[t], T[t][r]);
          AgreeSetProp(sc, T, a, x, m);
          SetPropFrame(sc, T, a, x, m.(diff := false));
          var o := SetProp(sc, T, a, p.typ, x, m.(diff := false));
          if o.res.Ok? {
            SlotStays(sc, T, o.tables, a, Owner(sc, T, a) + KeysVal(sc, p.typ, x));
            AgreePopulate(sc, o.tables, t, r, v, m, created, i + 1);
          }
        }
      }
    }
  }

  lemma {:induction false} AgreeSetProp(sc: Schema, T: Tables, a: Addr, x: Value, m: Mode)
    requires Slot(sc, T, a) && Keyed(sc) && Strict(m)
    requires Owner(sc, T, a) !! KeysVal(sc, TypeOf(sc, a), x) && NoReturnVal(sc, TypeOf(sc, a), x)
    ensures var p := TypeOf(sc, a);
            Agree(SetProp(sc, T, a, p, x, m.(diff := false)), SetProp(sc, T, a, p, x, m.(diff := true)))
    decreases x, 5, 0
  {
    hide Frame, RowOk, Resolve, Assign;
    var p := TypeOf(sc, a);
    PutSame(T, a);
    if p.Array? {
      AgreeAssign(sc, T, a, x, m);
    } else if !(p.nullable && x.Null?) {
      var o := Resolve(sc, T, p.elem, x, m.(diff := false), LinkAt(T, a), false);
      AgreeResolve(sc, T, p.elem, x, m, LinkAt(T, a), LinkAt(T, a), false);
      ResolveStays(sc, T, a, p.elem, x, m.(diff := false), LinkAt(T, a), false);
      PutSame(o.tables, a);
      assert CellAt(o.tables, a) == CellAt(T, a);
    }
  }

  lemma {:induction false} AgreeResolve(sc: Schema, T: Tables, e: Elem, x: Value, m: Mode, curF: Option<nat>, curD: Option<nat>, inList: bool)
    requires ValidSchema(sc) && Keyed(sc) && Typed(sc, T) && (e.Object? ==> e.target < |sc|) && Strict(m)
    requires NoReturnItem(sc, e, x)
    ensures Agree(Resolve(sc, T, e, x, m.(diff := false), curF, inList), Resolve(sc, T, e, x, m.(diff := true), curD, inList))
    decreases x, 3, 0
  {
    hide Typed, Create;
    if e.Object? && !x.RowBox? {
      AgreeCreate(sc, T, e.target, x, m, curF, curD);
    }
  }

  lemma {:induction false} AgreeAssign(sc: Schema, T: Tables, a: Addr, x: Value, m: Mode)
    requires Slot(sc, T, a) && Keyed(sc) && TypeOf(sc, a).Array? && Strict(m)
    requires Owner(sc, T, a) !! KeysVal(sc, TypeOf(sc, a), x) && NoReturnVal(sc, TypeOf(sc, a), x)
    ensures var e := TypeOf(sc, a).elem;
            Agree(Assign(sc, T, a, e, x, m.(diff := false)), Assign(sc, T, a, e, x, m.(diff := true)))
    decreases x, 4, 0
  {
    hide Frame, RowOk, AssignFrom;
    if x != ListBox(a) && x.Vec? {
      var e := TypeOf(sc, a).elem;
      var items := ItemsAt(T, a);
      var n := |items|;
      var own := Owner(sc, T, a);
      var F := Put(T, a, Many([]));
      StillHas(sc, T, T, a) by { GrowsRefl(T); }
      PutSafe(sc, T, a, Many([]), true);
      PutFrame(sc, T, a, Many([]), own);
      SlotStays(sc, T, F, a, own);
      PutPut(T, a, Many([]), Many(items));
      PutSame(T, a);
      assert ItemsAt(F, a) + Rest(items, 0) == items;
      AgreeAssignFrom(sc, F, a, items, x, 0, n, m);
      var f := AssignFrom(sc, F, a, e, x, 0, 0, m.(diff := false));
      var d := AssignFrom(sc, T, a, e, x, 0, n, m.(diff := true));
      if f.res.Ok? {
        AssignFromFrame(sc, F, a, x, 0, 0, m.(diff := false));
        AddsStay(sc, F, a, x, 0, m.(diff := false));
        SlotStays(sc, F, f.tables, a, own + KeysElems(sc, e, x, 0));
        var rest := Rest(items, |x.elems|);
        var done := ItemsAt(f.tables, a);
        RemoveTailIs(d.tables, a, |x.elems|, n);
        assert (done + rest)[..|x.elems|] == done;
        PutPut(f.tables, a, Many(done + rest), Many(done));
        PutSame(f.tables, a);
        assert f.res.value == ();
      }
    }
  }

  // The old items that the comparison has not reached after k elements.
  function Rest(items: seq<Item>, k: nat): seq<Item> {
    if k < |items| then items[k..] else []
  }

  // In step k the full mode has a list of the k new items, the diff mode these and then
  // the old items from k on; otherwise the tables are the same.
  lemma {:induction false} AgreeAssignFrom(sc: Schema, F: Tables, a: Addr, items: seq<Item>, x: Value, k: nat, n: nat, m: Mode)
    requires Slot(sc, F, a) && Keyed(sc) && TypeOf(sc, a).Array? && Strict(m) && x.Vec? && k <= |x.elems|
    requires CellAt(F, a).Many? && |ItemsAt(F, a)| == k && n == |items|
    requires Owner(sc, F, a) !! KeysElems(sc, TypeOf(sc, a).elem, x, k)
    requires NoReturnElems(sc, TypeOf(sc, a).elem, x, k)
    ensures var e := TypeOf(sc, a).elem;
            var D := Put(F, a, Many(ItemsAt(F, a) + Rest(items, k)));
            var f := AssignFrom(sc, F, a, e, x, k, 0, m.(diff := false));
            var d := AssignFrom(sc, D, a, e, x, k, n, m.(diff := true));
            && f.res == d.res
            && (f.res.Ok? ==>
                  && d.writes <= f.writes
                  && d.tables == Put(f.tables, a, Many(ItemsAt(f.tables, a) + Rest(items, |x.elems|))))
    decreases x, 0, |x.elems| - k
  {
    hide Frame, RowOk, SetIfDifferent, Add;
    if k < |x.elems| {
      var e := TypeOf(sc, a).elem;
      var y := x.elems[k];
      var D := Put(F, a, Many(ItemsAt(F, a) + Rest(items, k)));
      AgreeStep(sc, F, a, items, y, k, m);
      AddFrame(sc, F, a, y, m.(diff := false));
      AddStays(sc, F, a, y, m.(diff := false));
      var f := Add(sc, F, a, e, y, m.(diff := false));
      if f.res.Ok? {
        SlotStays(sc, F, f.tables, a, Owner(sc, F, a) + KeysItem(sc, e, y));
        AgreeAssignFrom(sc, f.tables, a, items, x, k + 1, n, m);
      }
    }
  }

  lemma {:induction false} AgreeStep(sc: Schema, F: Tables, a: Addr, items: seq<Item>, y: Value, k: nat, m: Mode)
    requires Slot(sc, F, a) && Keyed(sc) && TypeOf(sc, a).Array? && Strict(m)
    requires CellAt(F, a).Many? && |ItemsAt(F, a)| == k
    requires Owner(sc, F, a) !! KeysItem(sc, TypeOf(sc, a).elem, y) && NoReturnItem(sc, TypeOf(sc, a).elem, y)
    ensures var e := TypeOf(sc, a).elem;
            var D := Put(F, a, Many(ItemsAt(F, a) + Rest(items, k)));
            var f := Add(sc, F, a, e, y, m.(diff := false));
            var d := if k < |items| then SetIfDifferent(sc, D, a, e, y, k, m.(diff := true)) else Add(sc, D, a, e, y, m.(diff := true));
            && f.res == d.res
            && (f.res.Ok? ==>
                  && d.writes <= f.writes
                  && d.tables == Put(f.tables, a, Many(ItemsAt(f.tables, a) + Rest(items, k + 1))))
    decreases y, 4, 0
  {
    hide RowOk, Put, Resolve, KeysFrom, SetIfDifferent, Add;
    var e := TypeOf(sc, a).elem;
    var P := ItemsAt(F, a);
    var full, diff := m.(diff := false), m.(diff := true);
    ResolveStays(sc, F, a, e, y, full, None, true);
    if k < |items| {
      var cur := if items[k].Ref? then Some(items[k].row) else None;
      CommuteResolve(sc, F, a, Many(P + Rest(items, k)), e, y, diff, cur, true);
      AgreeResolve(sc, F, e, y, m, None, cur, true);
      Replaced(sc, F, a, e, items, y, k, m);
    } else {
      Appended(sc, F, a, e, y, m);
      assert P + [] == P;
      PutSame(F, a);
    }
  }

  // Diff mode replaces the k-th of the items where full mode appends.
  lemma Replaced(sc: Schema, F: Tables, a: Addr, e: Elem, items: seq<Item>, y: Value, k: nat, m: Mode)
    requires ValidSchema(sc) && (e.Object? ==> e.target < |sc|)
    requires CellAt(F, a).Many? && |ItemsAt(F, a)| == k < |items|
    requires var cur := if items[k].Ref? then Some(items[k].row) else None;
             var z := Many(ItemsAt(F, a) + Rest(items, k));
             var o := Resolve(sc, F, e, y, m.(diff := false), None, true);
             var q := Resolve(sc, F, e, y, m.(diff := true), cur, true);
             && Has(o.tables, a) && CellAt(o.tables, a) == CellAt(F, a)
             && Resolve(sc, Put(F, a, z), e, y, m.(diff := true), cur, true) == Patched(q, a, z) && Agree(o, q)
    ensures var d := SetIfDifferent(sc, Put(F, a, Many(ItemsAt(F, a) + Rest(items, k))), a, e, y, k, m.(diff := true));
            var f := Add(sc, F, a, e, y, m.(diff := false));
            && f.res == d.res
            && (f.res.Ok? ==>
                  && d.writes <= f.writes
                  && d.tables == Put(f.tables, a, Many(ItemsAt(f.tables, a) + Rest(items, k + 1))))
  {
    hide Put, Resolve;
    var P := ItemsAt(F, a);
    var o := Resolve(sc, F, e, y, m.(diff := false), None, true);
    assert (P + Rest(items, k))[k] == items[k];
    PutGet(F, a, Many(P + Rest(items, k)));
    if o.res.Ok? {
      var it := o.res.value;
      assert (P + Rest(items, k))[k := it] == (P + [it]) + Rest(items, k + 1);
      assert items[k] == it ==> P + Rest(items, k) == (P + [it]) + Rest(items, k + 1);
      PutPut(o.tables, a, Many(P + Rest(items, k)), Many((P + [it]) + Rest(items, k + 1)));
      PutGet(o.tables, a, Many(P + Rest(items, k)));
      PutGet(o.tables, a, Many(P + [it]));
      PutPut(o.tables, a, Many(P + [it]), Many((P + [it]) + Rest(items, k + 1)));
    }
  }

  lemma Appended(sc: Schema, F: Tables, a: Addr, e: Elem, y: Value, m: Mode)
    requires ValidSchema(sc) && (e.Object? ==> e.target < |sc|)
    requires var o := Resolve(sc, F, e, y, m.(diff := false), None, true);
             Has(o.tables, a) && CellAt(o.tables, a) == CellAt(F, a)
    ensures var f := Add(sc, F, a, e, y, m.(diff := false));
            && Add(sc, F, a, e, y, m.(diff := true)) == f
            && (f.res.Ok? ==> f.tables == Put(f.tables, a, Many(ItemsAt(f.tables, a) + [])))
  {
    hide Put, Resolve;
    var o := Resolve(sc, F, e, y, m.(diff := false), None, true);
    if o.res.Ok? {
      var f := Add(sc, F, a, e, y, m.(diff := false)).tables;
      PutGet(o.tables, a, Many(ItemsAt(F, a) + [o.res.value]));
      assert ItemsAt(f, a) + [] == ItemsAt(f, a);
      PutSame(f, a);
    }
  }
}
