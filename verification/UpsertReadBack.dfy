/** Reading a created object back gives every supplied property, and upserting the
    same value again in diff mode is a no-op. */
module UpsertReadBack {
  import opened RealmModel
  import opened UpsertSpec
  import opened UpsertInvariant
  import opened UpsertFrame

  // ---------- no key occurs twice in the tree ----------

  predicate DistinctOf(sc: Schema, t: nat, v: Value)
    requires ValidSchema(sc) && t < |sc|
    decreases v, 2, 0
  {
    OwnKey(sc, t, v) !! KeysFrom(sc, t, v, 0) && DistinctFrom(sc, t, v, 0)
  }

  predicate DistinctFrom(sc: Schema, t: nat, v: Value, i: nat)
    requires ValidSchema(sc) && t < |sc| && i <= |sc[t].props|
    decreases v, 1, |sc[t].props| - i
  {
    if i == |sc[t].props| then true
    else if sc[t].primary == Some(i) then DistinctFrom(sc, t, v, i + 1)
    else
      assert ValidType(sc, sc[t]) && ValidProp(sc, sc[t].props[i].typ);
      match Lookup(v, sc[t].props[i].name)
      case Ok(Some(x)) =>
        && DistinctVal(sc, sc[t].props[i].typ, x)
        && KeysVal(sc, sc[t].props[i].typ, x) !! KeysFrom(sc, t, v, i + 1)
        && DistinctFrom(sc, t, v, i + 1)
      case Ok(None) => DistinctFrom(sc, t, v, i + 1)
      case Err(_) => true
  }

  predicate DistinctVal(sc: Schema, p: PropType, x: Value)
    requires ValidSchema(sc) && ValidProp(sc, p)
    decreases x, 4, 0
  {
    match p
    case Single(e, _) => x.Null? || DistinctItem(sc, e, x)
    case Array(e) => x.Vec? ==> DistinctElems(sc, e, x, 0)
  }

  predicate DistinctItem(sc: Schema, e: Elem, x: Value)
    requires ValidSchema(sc) && (e.Object? ==> e.target < |sc|)
    decreases x, 3, 0
  {
    e.Object? && !x.RowBox? ==> DistinctOf(sc, e.target, x)
  }

  predicate DistinctElems(sc: Schema, e: Elem, x: Value, k: nat)
    requires ValidSchema(sc) && (e.Object? ==> e.target < |sc|) && x.Vec? && k <= |x.elems|
    decreases x, 0, |x.elems| - k
  {
    k < |x.elems| ==>
      && DistinctItem(sc, e, x.elems[k])
      && KeysItem(sc, e, x.elems[k]) !! KeysElems(sc, e, x, k + 1)
      && DistinctElems(sc, e, x, k + 1)
  }

  // ---------- row r of table t reads back as v ----------

  // An object with a key is held by the first row with that key, one without by a row that
  // was not there in the tables B.

  predicate HoldsObj(sc: Schema, T: Tables, B: Tables, t: nat, v: Value, r: nat)
    requires ValidSchema(sc) && t < |sc|
    decreases v, 2, 0
  {
    MadeFor(sc, B, T, t, v, r) && HoldsFrom(sc, T, B, t, r, v, 0)
  }

  predicate HoldsFrom(sc: Schema, T: Tables, B: Tables, t: nat, r: nat, v: Value, i: nat)
    requires ValidSchema(sc) && t < |sc| && i <= |sc[t].props|
    decreases v, 1, |sc[t].props| - i
  {
    if i == |sc[t].props| then true
    else if sc[t].primary == Some(i) then HoldsFrom(sc, T, B, t, r, v, i + 1)
    else
      assert ValidType(sc, sc[t]) && ValidProp(sc, sc[t].props[i].typ);
      match Lookup(v, sc[t].props[i].name)
      case Ok(Some(x)) => HoldsVal(sc, T, B, Addr(t, r, i), sc[t].props[i].typ, x) && HoldsFrom(sc, T, B, t, r, v, i + 1)
      case Ok(None) => HoldsFrom(sc, T, B, t, r, v, i + 1)
      case Err(_) => false
  }

  predicate HoldsVal(sc: Schema, T: Tables, B: Tables, a: Addr, p: PropType, x: Value)
    requires ValidSchema(sc) && ValidProp(sc, p)
    decreases x, 4, 0
  {
    match p
    case Single(e, nullable) =>
      if nullable && x.Null? then CellAt(T, a) == Empty
      else !x.Null? && CellAt(T, a).One? && HoldsItem(sc, T, B, e, x, CellAt(T, a).item, false)
    case Array(e) =>
      && CellAt(T, a).Many?
      && (x == ListBox(a)
          || (x.Null? && ItemsAt(T, a) == [])
          || (x.Vec? && |ItemsAt(T, a)| == |x.elems| && HoldsElems(sc, T, B, e, x, ItemsAt(T, a), 0)))
  }

  predicate HoldsItem(sc: Schema, T: Tables, B: Tables, e: Elem, x: Value, it: Item, inList: bool)
    requires ValidSchema(sc) && (e.Object? ==> e.target < |sc|)
    decreases x, 3, 0
  {
    match e
    case Basic(k) => Unbox(k, x).Ok? && it == DataItem(Unbox(k, x).value)
    case Object(target) =>
      if x.RowBox? then it == Ref(x.row) && x.row < Size(T, target) && (inList ==> x.table == target)
      else it.Ref? && HoldsObj(sc, T, B, target, x, it.row)
  }

  predicate HoldsElems(sc: Schema, T: Tables, B: Tables, e: Elem, x: Value, items: seq<Item>, k: nat)
    requires ValidSchema(sc) && (e.Object? ==> e.target < |sc|)
    requires x.Vec? && k <= |x.elems| <= |items|
    decreases x, 0, |x.elems| - k
  {
    k < |x.elems| ==> HoldsItem(sc, T, B, e, x.elems[k], items[k], true) && HoldsElems(sc, T, B, e, x, items, k + 1)
  }

  // ---------- what holds keeps holding when only other rows are written ----------

  // The rows without a key that K names were there in B.
  predicate Known(K: set<Key>, B: Tables) {
    forall q :: q in K && q.Place? ==> q.r < Size(B, q.t)
  }

  lemma {:induction false} StableObj(sc: Schema, T: Tables, U: Tables, B: Tables, t: nat, v: Value, r: nat, K: set<Key>)
    requires ValidSchema(sc) && t < |sc| && |T| == |sc| && Frame(sc, T, U, K) && Known(K, B)
    requires HoldsObj(sc, T, B, t, v, r) && K !! KeysOf(sc, t, v)
    ensures HoldsObj(sc, U, B, t, v, r)
    decreases v, 2, 0
  {
    assert ValidType(sc, sc[t]);
    if sc[t].primary.Some? {
      var k := KeyFor(sc[t], v).value;
      assert Key(t, k) in OwnKey(sc, t, v);
      FindStable(sc, T, U, t, k, K);
    }
    StableFrom(sc, T, U, B, t, r, v, 0, K);
  }

  lemma {:induction false} StableFrom(sc: Schema, T: Tables, U: Tables, B: Tables, t: nat, r: nat, v: Value, i: nat, K: set<Key>)
    requires ValidSchema(sc) && t < |sc| && |T| == |sc| && Frame(sc, T, U, K) && Known(K, B)
    requires r < Size(T, t) && i <= |sc[t].props| && IdOf(sc, T, t, r) !in K
    requires HoldsFrom(sc, T, B, t, r, v, i) && K !! KeysFrom(sc, t, v, i)
    ensures HoldsFrom(sc, U, B, t, r, v, i)
    decreases v, 1, |sc[t].props| - i
  {
    if i < |sc[t].props| {
      assert ValidType(sc, sc[t]) && ValidProp(sc, sc[t].props[i].typ);
      var l := Lookup(v, sc[t].props[i].name);
      if sc[t].primary != Some(i) && l.value.Some? {
        assert U[t][r] == T[t][r];
        StableVal(sc, T, U, B, Addr(t, r, i), sc[t].props[i].typ, l.value.value, K);
      }
      StableFrom(sc, T, U, B, t, r, v, i + 1, K);
    }
  }

  lemma {:induction false} StableVal(sc: Schema, T: Tables, U: Tables, B: Tables, a: Addr, p: PropType, x: Value, K: set<Key>)
    requires ValidSchema(sc) && |T| == |sc| && Frame(sc, T, U, K) && Known(K, B)
    requires ValidProp(sc, p) && CellAt(U, a) == CellAt(T, a)
    requires HoldsVal(sc, T, B, a, p, x) && K !! KeysVal(sc, p, x)
    ensures HoldsVal(sc, U, B, a, p, x)
    decreases x, 4, 0
  {
    if p.Array? {
      if x.Vec? {
        StableElems(sc, T, U, B, p.elem, x, ItemsAt(T, a), 0, K);
      }
    } else if !x.Null? {
      StableItem(sc, T, U, B, p.elem, x, CellAt(T, a).item, false, K);
    }
  }

  lemma {:induction false} StableItem(sc: Schema, T: Tables, U: Tables, B: Tables, e: Elem, x: Value, it: Item, inList: bool, K: set<Key>)
    requires ValidSchema(sc) && |T| == |sc| && Frame(sc, T, U, K) && Known(K, B)
    requires e.Object? ==> e.target < |sc|
    requires HoldsItem(sc, T, B, e, x, it, inList) && K !! KeysItem(sc, e, x)
    ensures HoldsItem(sc, U, B, e, x, it, inList)
    decreases x, 3, 0
  {
    if e.Object? && !x.RowBox? {
      StableObj(sc, T, U, B, e.target, x, it.row, K);
    }
  }

  // What holds of rows new since B holds of rows new since an earlier A.
  lemma {:induction false} EarlierObj(sc: Schema, T: Tables, A: Tables, B: Tables, t: nat, v: Value, r: nat)
    requires ValidSchema(sc) && t < |sc| && Grows(A, B) && HoldsObj(sc, T, B, t, v, r)
    ensures HoldsObj(sc, T, A, t, v, r)
    decreases v, 2, 0
  {
    EarlierFrom(sc, T, A, B, t, v, r, 0);
  }

  lemma {:induction false} EarlierFrom(sc: Schema, T: Tables, A: Tables, B: Tables, t: nat, v: Value, r: nat, i: nat)
    requires ValidSchema(sc) && t < |sc| && i <= |sc[t].props| && Grows(A, B) && HoldsFrom(sc, T, B, t, r, v, i)
    ensures HoldsFrom(sc, T, A, t, r, v, i)
    decreases v, 1, |sc[t].props| - i
  {
    if i < |sc[t].props| {
      assert ValidType(sc, sc[t]) && ValidProp(sc, sc[t].props[i].typ);
      var l := Lookup(v, sc[t].props[i].name);
      if sc[t].primary != Some(i) && l.value.Some? {
        EarlierVal(sc, T, A, B, Addr(t, r, i), sc[t].props[i].typ, l.value.value);
      }
      EarlierFrom(sc, T, A, B, t, v, r, i + 1);
    }
  }

  lemma {:induction false} EarlierVal(sc: Schema, T: Tables, A: Tables, B: Tables, a: Addr, p: PropType, x: Value)
    requires ValidSchema(sc) && ValidProp(sc, p) && Grows(A, B) && HoldsVal(sc, T, B, a, p, x)
    ensures HoldsVal(sc, T, A, a, p, x)
    decreases x, 4, 0
  {
    if p.Array? {
      if x.Vec? {
        EarlierElems(sc, T, A, B, p.elem, x, ItemsAt(T, a), 0);
      }
    } else if p.elem.Object? && !x.Null? && !x.RowBox? {
      EarlierObj(sc, T, A, B, p.elem.target, x, CellAt(T, a).item.row);
    }
  }

  lemma {:induction false} EarlierElems(sc: Schema, T: Tables, A: Tables, B: Tables, e: Elem, x: Value, items: seq<Item>, k: nat)
    requires ValidSchema(sc) && (e.Object? ==> e.target < |sc|) && Grows(A, B)
    requires x.Vec? && k <= |x.elems| <= |items| && HoldsElems(sc, T, B, e, x, items, k)
    ensures HoldsElems(sc, T, A, e, x, items, k)
    decreases x, 0, |x.elems| - k
  {
    if k < |x.elems| {
      if e.Object? && !x.elems[k].RowBox? {
        EarlierObj(sc, T, A, B, e.target, x.elems[k], items[k].row);
      }
      EarlierElems(sc, T, A, B, e, x, items, k + 1);
    }
  }

  lemma {:induction false} StableElems(sc: Schema, T: Tables, U: Tables, B: Tables, e: Elem, x: Value, items: seq<Item>, k: nat, K: set<Key>)
    requires ValidSchema(sc) && |T| == |sc| && Frame(sc, T, U, K) && Known(K, B)
    requires e.Object? ==> e.target < |sc|
    requires x.Vec? && k <= |x.elems| <= |items|
    requires HoldsElems(sc, T, B, e, x, items, k) && K !! KeysElems(sc, e, x, k)
    ensures HoldsElems(sc, U, B, e, x, items, k)
    decreases x, 0, |x.elems| - k
  {
    if k < |x.elems| {
      StableItem(sc, T, U, B, e, x.elems[k], items[k], true, K);
      StableElems(sc, T, U, B, e, x, items, k + 1, K);
    }
  }

  // ---------- a successful upsert reads back ----------

  // Only column a.c of a's row may differ.
  predicate OnlyCell(T: Tables, U: Tables, a: Addr) {
    && Has(T, a) && Has(U, a) && |U[a.t][a.r]| == |T[a.t][a.r]|
    && forall c :: 0 <= c < |T[a.t][a.r]| && c != a.c ==> U[a.t][a.r][c] == T[a.t][a.r][c]
  }

  lemma {:induction false} ReadCreate(sc: Schema, T: Tables, B: Tables, t: nat, v: Value, m: Mode, cur: Option<nat>)
    requires ValidSchema(sc) && Typed(sc, T) && t < |sc| && Tracked(sc, m) && Grows(B, T)
    requires DistinctOf(sc, t, v)
    ensures var o := Create(sc, T, t, v, m, cur);
            o.res.Ok? ==> HoldsObj(sc, o.tables, B, t, v, o.res.value)
    decreases v, 2, 0
  {
    hide Frame, Typed, UniqueKeys;
    var ot := sc[t];
    assert ValidType(sc, ot);
    var o := Create(sc, T, t, v, m, cur);
    CreateFrame(sc, T, t, v, m, cur);
    if ot.primary.None? {
      var n, N := Size(T, t), AddRow(sc, T, t);
      AddRowTyped(sc, T, t);
      PopulateSafe(sc, N, t, n, v, m, true, 0);
      PopulateFrame(sc, N, t, n, v, m, true, 0);
      ReadPopulate(sc, N, N, t, n, v, m, true, 0);
      if o.res.Ok? {
        EarlierFrom(sc, o.tables, B, N, t, v, n, 0);
      }
    } else if o.res.Ok? {
      var k := KeyFor(ot, v).value;
      var (U, r) := Entered(sc, T, t, k);
      EnteredFrame(sc, T, t, v);
      PopulateSafe(sc, U, t, r, v, m, FindFirst(sc, T, t, k).None?, 0);
      ReadPopulate(sc, U, B, t, r, v, m, FindFirst(sc, T, t, k).None?, 0);
    }
  }

  lemma {:induction false} ReadPopulate(sc: Schema, T: Tables, B: Tables, t: nat, r: nat, v: Value, m: Mode, created: bool, i: nat)
    requires ValidSchema(sc) && Typed(sc, T) && t < |sc| && Tracked(sc, m)
    requires r < Size(T, t) && i <= |sc[t].props|
    requires IdOf(sc, T, t, r) !in KeysFrom(sc, t, v, i) && DistinctFrom(sc, t, v, i)
    requires Grows(B, T) && Known({IdOf(sc, T, t, r)}, B)
    ensures var o := Populate(sc, T, t, r, v, m, created, true, i);
            o.res.Ok? ==>
              && HoldsFrom(sc, o.tables, B, t, r, v, i)
              && (forall c :: 0 <= c < i ==> CellAt(o.tables, Addr(t, r, c)) == CellAt(T, Addr(t, r, c)))
    decreases v, 1, |sc[t].props| - i, 1
  {
    hide Frame, Typed, SetProp;
    if i < |sc[t].props| {
      var p := sc[t].props[i];
      assert ValidType(sc, sc[t]) && ValidProp(sc, p.typ);
      if sc[t].primary == Some(i) || Lookup(v, p.name) == Ok(None) {
        ReadPopulate(sc, T, B, t, r, v, m, created, i + 1);
      } else if Lookup(v, p.name).Ok? {
        var x := Lookup(v, p.name).value.value;
        if !(x.Null? && Required(p.typ)) {
          ReadPresent(sc, T, B, t, r, v, m, created, i, x);
        }
      }
    }
  }

  // The step of the loop that sets property i.
  lemma PopulateSets(sc: Schema, T: Tables, t: nat, r: nat, v: Value, m: Mode, created: bool, i: nat, x: Value)
    requires ValidSchema(sc) && t < |sc| && i < |sc[t].props| && sc[t].primary != Some(i)
    requires Lookup(v, sc[t].props[i].name) == Ok(Some(x)) && !(x.Null? && Required(sc[t].props[i].typ))
    ensures ValidType(sc, sc[t]) && ValidProp(sc, sc[t].props[i].typ)
    ensures var o := SetProp(sc, T, Addr(t, r, i), sc[t].props[i].typ, x, m);
            Populate(sc, T, t, r, v, m, created, true, i)
            == if o.res.Err? then Out(o.tables, Err(o.res.error), o.writes)
               else Counting(o.writes, Populate(sc, o.tables, t, r, v, m, created, true, i + 1))
  {
    hide SetProp;
    assert ValidType(sc, sc[t]);
  }

  lemma {:induction false} ReadPresent(sc: Schema, T: Tables, B: Tables, t: nat, r: nat, v: Value, m: Mode, created: bool, i: nat, x: Value)
    requires ValidSchema(sc) && Typed(sc, T) && t < |sc| && Tracked(sc, m)
    requires r < Size(T, t) && i < |sc[t].props| && sc[t].primary != Some(i)
    requires Lookup(v, sc[t].props[i].name) == Ok(Some(x)) && !(x.Null? && Required(sc[t].props[i].typ))
    requires IdOf(sc, T, t, r) !in KeysFrom(sc, t, v, i) && DistinctFrom(sc, t, v, i)
    requires Grows(B, T) && Known({IdOf(sc, T, t, r)}, B)
    ensures var o := Populate(sc, T, t, r, v, m, created, true, i);
            o.res.Ok? ==>
              && HoldsFrom(sc, o.tables, B, t, r, v, i)
              && (forall c :: 0 <= c < i ==> CellAt(o.tables, Addr(t, r, c)) == CellAt(T, Addr(t, r, c)))
    decreases v, 1, |sc[t].props| - i, 0
  {
    hide Frame, KeepsKeys, ItemOk, SetProp, Populate;
    PopulateSets(sc, T, t, r, v, m, created, i, x);
    var p, a := sc[t].props[i], Addr(t, r, i);
    assert RowOk(T, sc[t], T[t][r]);
    var o := SetProp(sc, T, a, p.typ, x, m);
    SetPropFrame(sc, T, a, x, m);
    if o.res.Ok? {
      ReadSetProp(sc, T, B, a, x, m);
      SlotStays(sc, T, o.tables, a, Owner(sc, T, a) + KeysVal(sc, p.typ, x));
      PopulateFrame(sc, o.tables, t, r, v, m, created, i + 1);
      ReadPopulate(sc, o.tables, B, t, r, v, m, created, i + 1);
      var q := Populate(sc, o.tables, t, r, v, m, created, true, i + 1);
      if q.res.Ok? {
        ReadStep(sc, T, B, o.tables, q.tables, a, v, x);
      }
    }
  }

  // Cell a has been set to x, from T to U, and the properties after it, from U to V.
  lemma ReadStep(sc: Schema, T: Tables, B: Tables, U: Tables, V: Tables, a: Addr, v: Value, x: Value)
    requires Slot(sc, T, a) && Slot(sc, U, a) && Known(Owner(sc, U, a), B)
    requires Lookup(v, sc[a.t].props[a.c].name) == Ok(Some(x)) && DistinctFrom(sc, a.t, v, a.c)
    requires Owner(sc, U, a) !! KeysFrom(sc, a.t, v, a.c)
    requires HoldsVal(sc, U, B, a, TypeOf(sc, a), x) && OnlyCell(T, U, a)
    requires Frame(sc, U, V, Owner(sc, U, a) + KeysFrom(sc, a.t, v, a.c + 1))
    requires HoldsFrom(sc, V, B, a.t, a.r, v, a.c + 1)
    requires forall c :: 0 <= c < a.c + 1 ==> CellAt(V, Addr(a.t, a.r, c)) == CellAt(U, Addr(a.t, a.r, c))
    ensures HoldsFrom(sc, V, B, a.t, a.r, v, a.c)
    ensures forall c :: 0 <= c < a.c ==> CellAt(V, Addr(a.t, a.r, c)) == CellAt(T, Addr(a.t, a.r, c))
  {
    hide Frame, RowOk;
    StableVal(sc, U, V, B, a, TypeOf(sc, a), x, Owner(sc, U, a) + KeysFrom(sc, a.t, v, a.c + 1));
  }

  lemma {:induction false} ReadSetProp(sc: Schema, T: Tables, B: Tables, a: Addr, x: Value, m: Mode)
    requires Grows(B, T) && Known(Owner(sc, T, a), B)
    requires Slot(sc, T, a) && Tracked(sc, m)
    requires Owner(sc, T, a) !! KeysVal(sc, TypeOf(sc, a), x) && DistinctVal(sc, TypeOf(sc, a), x)
    ensures var p := TypeOf(sc, a);
            var o := SetProp(sc, T, a, p, x, m);
            o.res.Ok? ==> HoldsVal(sc, o.tables, B, a, p, x) && OnlyCell(T, o.tables, a)
    decreases x, 5, 0
  {
    hide Frame, RowOk, UniqueKeys;
    var p := TypeOf(sc, a);
    if p.Array? {
      ReadAssign(sc, T, B, a, x, m);
    } else if !x.Null? {
      var o := Resolve(sc, T, p.elem, x, m, LinkAt(T, a), false);
      ReadResolve(sc, T, B, a, p.elem, x, m, LinkAt(T, a), false);
      if o.res.Ok? {
        var U := Put(o.tables, a, One(o.res.value));
        PutFrame(sc, o.tables, a, One(o.res.value), Owner(sc, T, a));
        StableItem(sc, o.tables, U, B, p.elem, x, o.res.value, false, Owner(sc, T, a));
        if CellAt(T, a) == One(o.res.value) {
          assert CellAt(o.tables, a) == CellAt(T, a);
        }
      }
    }
  }

  lemma {:induction false} ReadResolve(sc: Schema, T: Tables, B: Tables, a: Addr, e: Elem, x: Value, m: Mode, cur: Option<nat>, inList: bool)
    requires Grows(B, T) && Known(Owner(sc, T, a), B)
    requires Slot(sc, T, a) && Tracked(sc, m) && (e.Object? ==> e.target < |sc|)
    requires Owner(sc, T, a) !! KeysItem(sc, e, x) && DistinctItem(sc, e, x)
    ensures var o := Resolve(sc, T, e, x, m, cur, inList);
            && Slot(sc, o.tables, a) && Owner(sc, o.tables, a) == Owner(sc, T, a)
            && o.tables[a.t][a.r] == T[a.t][a.r]
            && (o.res.Ok? ==> HoldsItem(sc, o.tables, B, e, x, o.res.value, inList))
    decreases x, 3, 0
  {
    ResolveStays(sc, T, a, e, x, m, cur, inList);
    if e.Object? && !x.RowBox? {
      ReadCreate(sc, T, B, e.target, x, m, cur);
    }
  }

  lemma {:induction false} ReadAssign(sc: Schema, T: Tables, B: Tables, a: Addr, x: Value, m: Mode)
    requires Grows(B, T) && Known(Owner(sc, T, a), B)
    requires Slot(sc, T, a) && TypeOf(sc, a).Array? && Tracked(sc, m)
    requires Owner(sc, T, a) !! KeysVal(sc, TypeOf(sc, a), x) && DistinctVal(sc, TypeOf(sc, a), x)
    ensures var p := TypeOf(sc, a);
            var o := Assign(sc, T, a, p.elem, x, m);
            o.res.Ok? ==> HoldsVal(sc, o.tables, B, a, p, x) && OnlyCell(T, o.tables, a)
    decreases x, 4, 0
  {
    hide Frame, RowOk, UniqueKeys;
    var e := TypeOf(sc, a).elem;
    var n := |ItemsAt(T, a)|;
    StillHas(sc, T, T, a) by { GrowsRefl(T); }
    if x != ListBox(a) && x.Vec? {
      if m.diff {
        var o := AssignFrom(sc, T, a, e, x, 0, n, m);
        ReadAssignFrom(sc, T, B, a, x, 0, n, m);
        if o.res.Ok? {
          var own := Owner(sc, T, a);
          RemoveTailIs(o.tables, a, |x.elems|, n);
          AssignFromFrame(sc, T, a, x, 0, n, m);
          SlotStays(sc, T, o.tables, a, own + KeysElems(sc, e, x, 0));
          var U := Put(o.tables, a, Many(ItemsAt(o.tables, a)[..|x.elems|]));
          PutFrame(sc, o.tables, a, Many(ItemsAt(o.tables, a)[..|x.elems|]), own);
          StableElems(sc, o.tables, U, B, e, x, ItemsAt(o.tables, a), 0, own);
          HoldsPrefix(sc, U, B, e, x, ItemsAt(o.tables, a), 0);
        }
      } else {
        var U := Put(T, a, Many([]));
        PutSafe(sc, T, a, Many([]), true);
        PutFrame(sc, T, a, Many([]), Owner(sc, T, a));
        SlotStays(sc, T, U, a, Owner(sc, T, a));
        ReadAssignFrom(sc, U, B, a, x, 0, 0, m);
      }
    }
  }

  lemma GrowsRefl(T: Tables)
    ensures Grows(T, T)
  {
  }

  lemma {:induction false} HoldsPrefix(sc: Schema, T: Tables, B: Tables, e: Elem, x: Value, items: seq<Item>, k: nat)
    requires ValidSchema(sc) && (e.Object? ==> e.target < |sc|)
    requires x.Vec? && k <= |x.elems| <= |items| && HoldsElems(sc, T, B, e, x, items, k)
    ensures HoldsElems(sc, T, B, e, x, items[..|x.elems|], k)
    decreases |x.elems| - k
  {
    if k < |x.elems| {
      HoldsPrefix(sc, T, B, e, x, items, k + 1);
    }
  }

  // Removing from the end one by one cuts the list at `index`.
  lemma {:induction false} RemoveTailIs(T: Tables, a: Addr, index: nat, sz: nat)
    requires Has(T, a) && CellAt(T, a).Many?
    requires |ItemsAt(T, a)| == if index < sz then sz else index
    ensures RemoveTail(T, a, index, sz)
         == Out(Put(T, a, Many(ItemsAt(T, a)[..index])), Ok(()), if index < sz then sz - index else 0)
    decreases sz
  {
    var items := ItemsAt(T, a);
    if index < sz {
      var U := Put(T, a, Many(items[..sz - 1] + items[sz..]));
      assert items[..sz - 1] + items[sz..] == items[..sz - 1];
      assert items[..sz - 1][..index] == items[..index];
      RemoveTailIs(U, a, index, sz - 1);
      PutPut(T, a, Many(items[..sz - 1]), Many(items[..index]));
    } else {
      assert items[..index] == items;
      PutSame(T, a);
    }
  }

  lemma PutPut(T: Tables, a: Addr, x: Cell, y: Cell)
    ensures Put(Put(T, a, x), a, y) == Put(T, a, y)
  {
    if Has(T, a) {
      var P, Q := Put(Put(T, a, x), a, y), Put(T, a, y);
      assert P[a.t][a.r] == Q[a.t][a.r];
      assert P[a.t] == Q[a.t];
      assert P == Q;
    }
  }

  lemma PutSame(T: Tables, a: Addr)
    ensures Put(T, a, CellAt(T, a)) == T
  {
    if Has(T, a) {
      var P := Put(T, a, CellAt(T, a));
      assert P[a.t][a.r] == T[a.t][a.r];
      assert P[a.t] == T[a.t];
    }
  }

  function Longer(k: nat, sz: nat): nat {
    if k < sz then sz else k
  }

  lemma {:induction false} ReadAssignFrom(sc: Schema, T: Tables, B: Tables, a: Addr, x: Value, k: nat, sz: nat, m: Mode)
    requires Grows(B, T) && Known(Owner(sc, T, a), B)
    requires Slot(sc, T, a) && TypeOf(sc, a).Array? && Tracked(sc, m) && x.Vec? && k <= |x.elems|
    requires CellAt(T, a).Many? && |ItemsAt(T, a)| == Longer(k, sz) && (k < sz ==> m.diff)
    requires Owner(sc, T, a) !! KeysElems(sc, TypeOf(sc, a).elem, x, k)
    requires DistinctElems(sc, TypeOf(sc, a).elem, x, k)
    ensures var e := TypeOf(sc, a).elem;
            var o := AssignFrom(sc, T, a, e, x, k, sz, m);
            var items := ItemsAt(o.tables, a);
            o.res.Ok? ==>
              && OnlyCell(T, o.tables, a) && CellAt(o.tables, a).Many?
              && |items| == Longer(|x.elems|, sz) && items[..k] == ItemsAt(T, a)[..k]
              && HoldsElems(sc, o.tables, B, e, x, items, k)
    decreases x, 0, |x.elems| - k
  {
    hide RowOk, ItemOk, SetIfDifferent, Add, CellAt, CellOk, Frame;
    var e := TypeOf(sc, a).elem;
    if k < |x.elems| {
      var y := x.elems[k];
      var own := Owner(sc, T, a);
      var o := if k < sz then SetIfDifferent(sc, T, a, e, y, k, m) else Add(sc, T, a, e, y, m);
      if k < sz {
        SetIfDifferentFrame(sc, T, a, y, k, m);
        ReadSetIfDifferent(sc, T, B, a, y, k, m);
      } else {
        AddFrame(sc, T, a, y, m);
        ReadAdd(sc, T, B, a, y, m);
      }
      if o.res.Ok? {
        SlotStays(sc, T, o.tables, a, own + KeysItem(sc, e, y));
        ReadAssignFrom(sc, o.tables, B, a, x, k + 1, sz, m);
        AssignFromFrame(sc, o.tables, a, x, k + 1, sz, m);
        var q := AssignFrom(sc, o.tables, a, e, x, k + 1, sz, m);
        if q.res.Ok? {
          ReadEntry(sc, T, o.tables, q.tables, B, a, x, k, own);
        }
      }
    }
  }

  // Entry k has been written, from T to U, and the entries after it, from U to V.
  lemma ReadEntry(sc: Schema, T: Tables, U: Tables, V: Tables, B: Tables, a: Addr, x: Value, k: nat, own: set<Key>)
    requires Slot(sc, U, a) && TypeOf(sc, a).Array? && x.Vec? && k < |x.elems| <= |ItemsAt(V, a)| && k < |ItemsAt(U, a)|
    requires Known(own, B) && own !! KeysElems(sc, TypeOf(sc, a).elem, x, k)
    requires DistinctElems(sc, TypeOf(sc, a).elem, x, k)
    requires Frame(sc, U, V, own + KeysElems(sc, TypeOf(sc, a).elem, x, k + 1))
    requires HoldsItem(sc, U, B, TypeOf(sc, a).elem, x.elems[k], ItemsAt(U, a)[k], true)
    requires HoldsElems(sc, V, B, TypeOf(sc, a).elem, x, ItemsAt(V, a), k + 1)
    requires ItemsAt(V, a)[..k + 1] == ItemsAt(U, a)[..k + 1]
    requires k <= |ItemsAt(T, a)| && ItemsAt(U, a)[..k] == ItemsAt(T, a)[..k]
    ensures HoldsElems(sc, V, B, TypeOf(sc, a).elem, x, ItemsAt(V, a), k)
    ensures ItemsAt(V, a)[..k] == ItemsAt(T, a)[..k]
  {
    hide Frame, RowOk;
    var e := TypeOf(sc, a).elem;
    var items, late := ItemsAt(U, a), ItemsAt(V, a);
    assert late[k] == late[..k + 1][k] == items[k];
    assert late[..k] == late[..k + 1][..k] == items[..k + 1][..k] == items[..k];
    StableItem(sc, U, V, B, e, x.elems[k], items[k], true, own + KeysElems(sc, e, x, k + 1));
  }

  lemma {:induction false} ReadSetIfDifferent(sc: Schema, T: Tables, B: Tables, a: Addr, y: Value, k: nat, m: Mode)
    requires Grows(B, T) && Known(Owner(sc, T, a), B)
    requires Slot(sc, T, a) && TypeOf(sc, a).Array? && Strict(m) && Keyed(sc)
    requires CellAt(T, a).Many? && k < |ItemsAt(T, a)|
    requires Owner(sc, T, a) !! KeysItem(sc, TypeOf(sc, a).elem, y) && DistinctItem(sc, TypeOf(sc, a).elem, y)
    ensures var e := TypeOf(sc, a).elem;
            var o := SetIfDifferent(sc, T, a, e, y, k, m);
            var items := ItemsAt(o.tables, a);
            o.res.Ok? ==>
              && OnlyCell(T, o.tables, a) && CellAt(o.tables, a).Many?
              && |items| == |ItemsAt(T, a)| && items == ItemsAt(T, a)[k := items[k]]
              && HoldsItem(sc, o.tables, B, e, y, items[k], true)
    decreases y, 4, 0
  {
    hide Frame, RowOk, Resolve, KeepsKeys, HoldsItem;
    var e := TypeOf(sc, a).elem;
    var items := ItemsAt(T, a);
    var cur := if items[k].Ref? then Some(items[k].row) else None;
    var o := Resolve(sc, T, e, y, m.(diff := true), cur, true);
    ReadResolve(sc, T, B, a, e, y, m.(diff := true), cur, true);
    if o.res.Ok? {
      var x := Many(items[k := o.res.value]);
      PutFrame(sc, o.tables, a, x, Owner(sc, T, a));
      StableItem(sc, o.tables, Put(o.tables, a, x), B, e, y, o.res.value, true, Owner(sc, T, a));
    }
  }

  lemma {:induction false} ReadAdd(sc: Schema, T: Tables, B: Tables, a: Addr, y: Value, m: Mode)
    requires Grows(B, T) && Known(Owner(sc, T, a), B)
    requires Slot(sc, T, a) && TypeOf(sc, a).Array? && Tracked(sc, m) && CellAt(T, a).Many?
    requires Owner(sc, T, a) !! KeysItem(sc, TypeOf(sc, a).elem, y) && DistinctItem(sc, TypeOf(sc, a).elem, y)
    ensures var e := TypeOf(sc, a).elem;
            var o := Add(sc, T, a, e, y, m);
            var n := |ItemsAt(T, a)|;
            var items := ItemsAt(o.tables, a);
            o.res.Ok? ==>
              && OnlyCell(T, o.tables, a) && CellAt(o.tables, a).Many?
              && |items| == n + 1 && items[..n] == ItemsAt(T, a)
              && HoldsItem(sc, o.tables, B, e, y, items[n], true)
    decreases y, 4, 0
  {
    hide Frame, RowOk, UniqueKeys;
    var e := TypeOf(sc, a).elem;
    var o := Resolve(sc, T, e, y, m.(diff := false), None, true);
    ReadResolve(sc, T, B, a, e, y, m.(diff := false), None, true);
    if o.res.Ok? {
      var x := Many(ItemsAt(T, a) + [o.res.value]);
      PutFrame(sc, o.tables, a, x, Owner(sc, T, a));
      StableItem(sc, o.tables, Put(o.tables, a, x), B, e, y, o.res.value, true, Owner(sc, T, a));
    }
  }

  // ---------- where the value already holds, diff mode does nothing ----------

  lemma {:induction false} NoOpCreate(sc: Schema, T: Tables, B: Tables, t: nat, v: Value, m: Mode, cur: Option<nat>, r: nat)
    requires ValidSchema(sc) && Keyed(sc) && t < |sc| && m.tryUpdate && m.diff
    requires HoldsObj(sc, T, B, t, v, r)
    ensures Create(sc, T, t, v, m, cur) == Out(T, Ok(r), 0)
    decreases v, 2, 0
  {
    assert ValidType(sc, sc[t]);
    NoOpPopulate(sc, T, B, t, r, v, m, 0);
  }

  lemma {:induction false} NoOpPopulate(sc: Schema, T: Tables, B: Tables, t: nat, r: nat, v: Value, m: Mode, i: nat)
    requires ValidSchema(sc) && Keyed(sc) && t < |sc| && m.tryUpdate && m.diff && i <= |sc[t].props|
    requires HoldsFrom(sc, T, B, t, r, v, i)
    ensures Populate(sc, T, t, r, v, m, false, true, i) == Out(T, Ok(r), 0)
    decreases v, 1, |sc[t].props| - i
  {
    if i < |sc[t].props| {
      var p := sc[t].props[i];
      assert ValidType(sc, sc[t]) && ValidProp(sc, p.typ);
      if sc[t].primary != Some(i) && Lookup(v, p.name).value.Some? {
        NoOpSetProp(sc, T, B, Addr(t, r, i), p.typ, Lookup(v, p.name).value.value, m);
      }
      NoOpPopulate(sc, T, B, t, r, v, m, i + 1);
    }
  }

  lemma {:induction false} NoOpSetProp(sc: Schema, T: Tables, B: Tables, a: Addr, p: PropType, x: Value, m: Mode)
    requires ValidSchema(sc) && Keyed(sc) && ValidProp(sc, p) && m.tryUpdate && m.diff
    requires HoldsVal(sc, T, B, a, p, x)
    ensures SetProp(sc, T, a, p, x, m) == Out(T, Ok(()), 0)
    decreases x, 5, 0
  {
    if p.Array? {
      if x.Vec? {
        NoOpAssignFrom(sc, T, B, a, p.elem, x, 0, m);
      } else if x.Null? && x != ListBox(a) {
        PutSame(T, a);
      }
    } else if !x.Null? {
      NoOpResolve(sc, T, B, p.elem, x, m, LinkAt(T, a), CellAt(T, a).item, false);
    }
  }

  lemma {:induction false} NoOpResolve(sc: Schema, T: Tables, B: Tables, e: Elem, x: Value, m: Mode, cur: Option<nat>, it: Item, inList: bool)
    requires ValidSchema(sc) && Keyed(sc) && (e.Object? ==> e.target < |sc|) && m.tryUpdate && m.diff
    requires HoldsItem(sc, T, B, e, x, it, inList)
    ensures Resolve(sc, T, e, x, m, cur, inList) == Out(T, Ok(it), 0)
    decreases x, 3, 0
  {
    if e.Object? && !x.RowBox? {
      NoOpCreate(sc, T, B, e.target, x, m, cur, it.row);
    }
  }

  lemma {:induction false} NoOpAssignFrom(sc: Schema, T: Tables, B: Tables, a: Addr, e: Elem, x: Value, k: nat, m: Mode)
    requires ValidSchema(sc) && Keyed(sc) && (e.Object? ==> e.target < |sc|) && m.tryUpdate && m.diff
    requires x.Vec? && k <= |x.elems| == |ItemsAt(T, a)| && HoldsElems(sc, T, B, e, x, ItemsAt(T, a), k)
    ensures AssignFrom(sc, T, a, e, x, k, |x.elems|, m) == Out(T, Ok(()), 0)
    decreases x, 0, |x.elems| - k
  {
    if k < |x.elems| {
      var it := ItemsAt(T, a)[k];
      var cur := if it.Ref? then Some(it.row) else None;
      NoOpResolve(sc, T, B, e, x.elems[k], m, cur, it, true);
      assert m.(diff := true) == m;
      NoOpAssignFrom(sc, T, B, a, e, x, k + 1, m);
    }
  }
}
