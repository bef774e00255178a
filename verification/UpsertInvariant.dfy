/** The store invariant: whatever Object::create is given, and even when it fails
    midway, the tables it leaves are well-typed with every link and list entry
    pointing at an existing row; and outside a migration primary keys stay unique. */
module UpsertInvariant {
  import opened RealmModel
  import opened UpsertSpec

  // The branch that adds a second row under an existing key is not available.
  predicate Strict(m: Mode) {
    m.tryUpdate || !m.migrating
  }

  // What one call may do to the tables T, leaving U.
  predicate Safe(sc: Schema, T: Tables, U: Tables, strict: bool) {
    && Typed(sc, U)
    && Grows(T, U)
    && KeepsKeys(sc, T, U)
    && (strict && UniqueKeys(sc, T) ==> UniqueKeys(sc, U))
  }

  lemma SafeTrans(sc: Schema, T: Tables, U: Tables, V: Tables, strict: bool)
    requires Safe(sc, T, U, strict) && Safe(sc, U, V, strict)
    ensures Safe(sc, T, V, strict)
  {
    forall t, r | 0 <= t < |T| && 0 <= r < |T[t]| ensures KeyAt(sc, V, t, r) == KeyAt(sc, T, t, r) {
      assert KeyAt(sc, U, t, r) == KeyAt(sc, T, t, r);
    }
  }

  // Setting a cell outside the primary key column.
  lemma PutSafe(sc: Schema, T: Tables, a: Addr, x: Cell, strict: bool)
    requires Typed(sc, T) && Has(T, a) && CellOk(T, sc[a.t].props[a.c].typ, x)
    requires sc[a.t].primary != Some(a.c)
    ensures Safe(sc, T, Put(T, a, x), strict)
  {
    PutTyped(sc, T, a, x);
    var U := Put(T, a, x);
    forall t, r | 0 <= t < |T| && 0 <= r < |T[t]| ensures KeyAt(sc, U, t, r) == KeyAt(sc, T, t, r) {
    }
  }

  // A new row under a key that no row has.
  lemma NewKeyedRow(sc: Schema, T: Tables, t: nat, k: Cell)
    requires ValidSchema(sc) && Typed(sc, T) && t < |sc| && sc[t].primary.Some?
    requires CellOk(T, sc[t].props[sc[t].primary.value].typ, k)
    requires FindFirst(sc, T, t, k).None?
    ensures var U := Put(AddRow(sc, T, t), Addr(t, Size(T, t), sc[t].primary.value), k);
            && Safe(sc, T, U, true)
            && Size(U, t) == Size(T, t) + 1 && KeyAt(sc, U, t, Size(T, t)) == k
            && (forall u :: 0 <= u < |T| && u != t ==> U[u] == T[u])
            && (forall r :: 0 <= r < |T[t]| ==> U[t][r] == T[t][r])
  {
    var N := AddRow(sc, T, t);
    var a := Addr(t, Size(T, t), sc[t].primary.value);
    assert ValidType(sc, sc[t]);
    AddRowTyped(sc, T, t);
    PutTyped(sc, N, a, k);
    var U := Put(N, a, k);
    forall u, r | 0 <= u < |T| && 0 <= r < |T[u]| ensures KeyAt(sc, U, u, r) == KeyAt(sc, T, u, r) {
    }
  }

  lemma KeyCellOk(sc: Schema, T: Tables, t: nat, v: Value)
    requires ValidSchema(sc) && t < |sc| && sc[t].primary.Some?
    ensures ValidType(sc, sc[t])
    ensures KeyFor(sc[t], v).Ok? ==> CellOk(T, sc[t].props[sc[t].primary.value].typ, KeyFor(sc[t], v).value)
  {
    assert ValidType(sc, sc[t]);
  }

  lemma {:induction false} CreateSafe(sc: Schema, T: Tables, t: nat, v: Value, m: Mode, cur: Option<nat>)
    requires ValidSchema(sc) && Typed(sc, T) && t < |sc|
    requires cur.Some? ==> cur.value < Size(T, t)
    ensures var o := Create(sc, T, t, v, m, cur);
            Safe(sc, T, o.tables, Strict(m)) && (o.res.Ok? ==> o.res.value < Size(o.tables, t))
    decreases v, 2, 0
  {
    hide Populate, CellAt;
    var ot := sc[t];
    assert ValidType(sc, ot);
    if ot.primary.Some? {
      KeyCellOk(sc, T, t, v);
      if KeyFor(ot, v).Ok? {
        var k := KeyFor(ot, v).value;
        match FindFirst(sc, T, t, k)
        case None =>
          var U := Put(AddRow(sc, T, t), Addr(t, Size(T, t), ot.primary.value), k);
          NewKeyedRow(sc, T, t, k);
          PopulateSafe(sc, U, t, Size(T, t), v, m, true, 0);
          SafeTrans(sc, T, U, Create(sc, T, t, v, m, cur).tables, Strict(m));
        case Some(r) =>
          if m.tryUpdate {
            PopulateSafe(sc, T, t, r, v, m, false, 0);
          } else if m.migrating {
            AddRowTyped(sc, T, t);
            PopulateLoose(sc, AddRow(sc, T, t), t, Size(T, t), v, m, 0);
          }
      }
    } else if m.diff && cur.Some? {
      PopulateSafe(sc, T, t, cur.value, v, m, false, 0);
    } else {
      AddRowTyped(sc, T, t);
      var U := AddRow(sc, T, t);
      assert Safe(sc, T, U, Strict(m));
      PopulateSafe(sc, U, t, Size(T, t), v, m, true, 0);
      SafeTrans(sc, T, U, Create(sc, T, t, v, m, cur).tables, Strict(m));
    }
  }

  lemma {:induction false} PopulateSafe(sc: Schema, T: Tables, t: nat, r: nat, v: Value, m: Mode, created: bool, i: nat)
    requires ValidSchema(sc) && Typed(sc, T) && t < |sc| && r < Size(T, t) && i <= |sc[t].props|
    ensures var o := Populate(sc, T, t, r, v, m, created, true, i);
            Safe(sc, T, o.tables, Strict(m)) && (o.res.Ok? ==> o.res.value == r)
    decreases v, 1, |sc[t].props| - i
  {
    if i < |sc[t].props| {
      var p := sc[t].props[i];
      assert ValidType(sc, sc[t]) && ValidProp(sc, p.typ);
      if sc[t].primary == Some(i) {
        PopulateSafe(sc, T, t, r, v, m, created, i + 1);
      } else {
        match Lookup(v, p.name)
        case Err(_) =>
        case Ok(None) =>
          PopulateSafe(sc, T, t, r, v, m, created, i + 1);
        case Ok(Some(x)) =>
          if !(x.Null? && Required(p.typ)) {
            var o := SetProp(sc, T, Addr(t, r, i), p.typ, x, m);
            assert RowOk(T, sc[t], T[t][r]);
            SetPropSafe(sc, T, Addr(t, r, i), x, m);
            if o.res.Ok? {
              PopulateSafe(sc, o.tables, t, r, v, m, created, i + 1);
              SafeTrans(sc, T, o.tables, Populate(sc, T, t, r, v, m, created, true, i).tables, Strict(m));
            }
          }
      }
    }
  }

  // Every row but row r of table t keeps its key.
  predicate KeepsBut(sc: Schema, T: Tables, U: Tables, t: nat, r: nat) {
    forall u, q :: 0 <= u < |T| && 0 <= q < |T[u]| && (u != t || q != r) ==> KeyAt(sc, U, u, q) == KeyAt(sc, T, u, q)
  }

  // Populating a new row with its primary key, as in a migration: the row ends with the
  // key that the value has, if it has one.
  lemma {:induction false} PopulateLoose(sc: Schema, T: Tables, t: nat, r: nat, v: Value, m: Mode, i: nat)
    requires ValidSchema(sc) && Typed(sc, T) && t < |sc| && r < Size(T, t) && i <= |sc[t].props|
    requires sc[t].primary.Some? && ValidType(sc, sc[t])
    ensures var o := Populate(sc, T, t, r, v, m, true, false, i);
            var c := sc[t].primary.value;
            && Typed(sc, o.tables) && Grows(T, o.tables) && KeepsBut(sc, T, o.tables, t, r)
            && (o.res.Ok? ==>
                  && o.res.value == r
                  && KeyAt(sc, o.tables, t, r)
                     == if i <= c && v.Dict? && sc[t].props[c].name in v.fields && KeyFor(sc[t], v).Ok?
                        then KeyFor(sc[t], v).value else KeyAt(sc, T, t, r))
    decreases v, 1, |sc[t].props| - i
  {
    hide SetProp;
    if i < |sc[t].props| {
      var p, a := sc[t].props[i], Addr(t, r, i);
      assert ValidProp(sc, p.typ);
      match Lookup(v, p.name)
      case Err(_) =>
      case Ok(None) =>
        PopulateLoose(sc, T, t, r, v, m, i + 1);
      case Ok(Some(x)) =>
        if !(x.Null? && Required(p.typ)) {
          var o := SetProp(sc, T, a, p.typ, x, m);
          assert RowOk(T, sc[t], T[t][r]);
          if sc[t].primary == Some(i) {
            SetKey(sc, T, a, v, x, m);
          } else {
            SetPropSafe(sc, T, a, x, m);
          }
          if o.res.Ok? {
            PopulateLoose(sc, o.tables, t, r, v, m, i + 1);
          }
        }
    }
  }

  // Setting the primary key of row a.r, which never creates anything.
  lemma SetKey(sc: Schema, T: Tables, a: Addr, v: Value, x: Value, m: Mode)
    requires ValidSchema(sc) && Typed(sc, T) && Has(T, a) && a.c < |sc[a.t].props|
    requires sc[a.t].primary == Some(a.c) && ValidType(sc, sc[a.t]) && ValidProp(sc, sc[a.t].props[a.c].typ)
    requires Lookup(v, sc[a.t].props[a.c].name) == Ok(Some(x))
    ensures var o := SetProp(sc, T, a, sc[a.t].props[a.c].typ, x, m);
            && Typed(sc, o.tables) && Grows(T, o.tables) && KeepsBut(sc, T, o.tables, a.t, a.r)
            && (o.res.Ok? && !(x.Null? && Required(sc[a.t].props[a.c].typ)) ==>
                  KeyFor(sc[a.t], v).Ok? && KeyAt(sc, o.tables, a.t, a.r) == KeyFor(sc[a.t], v).value)
  {
    hide Create;
    var p := sc[a.t].props[a.c].typ;
    if p.nullable && x.Null? {
      PutTyped(sc, T, a, Empty);
    } else if Unbox(p.elem.kind, x).Ok? {
      PutTyped(sc, T, a, One(DataItem(Unbox(p.elem.kind, x).value)));
    }
  }

  // An address stays an address of the same property.
  lemma StillHas(sc: Schema, T: Tables, U: Tables, a: Addr)
    requires Typed(sc, T) && Typed(sc, U) && Grows(T, U) && Has(T, a)
    ensures Has(U, a) && a.c < |sc[a.t].props| && CellOk(U, sc[a.t].props[a.c].typ, CellAt(U, a))
  {
    assert RowOk(T, sc[a.t], T[a.t][a.r]);
    assert RowOk(U, sc[a.t], U[a.t][a.r]);
  }

  lemma {:induction false} SetPropSafe(sc: Schema, T: Tables, a: Addr, x: Value, m: Mode)
    requires ValidSchema(sc) && Typed(sc, T) && Has(T, a) && a.c < |sc[a.t].props|
    requires sc[a.t].primary != Some(a.c)
    requires ValidProp(sc, sc[a.t].props[a.c].typ)
    ensures Safe(sc, T, SetProp(sc, T, a, sc[a.t].props[a.c].typ, x, m).tables, Strict(m))
    decreases x, 5, 0
  {
    var p := sc[a.t].props[a.c].typ;
    StillHas(sc, T, T, a);
    if p.Array? {
      AssignSafe(sc, T, a, x, m);
    } else if p.nullable && x.Null? {
      PutSafe(sc, T, a, Empty, Strict(m));
    } else {
      var o := Resolve(sc, T, p.elem, x, m, LinkAt(T, a), false);
      ResolveSafe(sc, T, p.elem, x, m, LinkAt(T, a), false);
      if o.res.Ok? {
        StillHas(sc, T, o.tables, a);
        PutSafe(sc, o.tables, a, One(o.res.value), Strict(m));
        SafeTrans(sc, T, o.tables, Put(o.tables, a, One(o.res.value)), Strict(m));
      }
    }
  }

  lemma {:induction false} ResolveSafe(sc: Schema, T: Tables, e: Elem, x: Value, m: Mode, cur: Option<nat>, inList: bool)
    requires ValidSchema(sc) && Typed(sc, T) && (e.Object? ==> e.target < |sc|)
    requires cur.Some? && e.Object? ==> cur.value < Size(T, e.target)
    ensures var o := Resolve(sc, T, e, x, m, cur, inList);
            Safe(sc, T, o.tables, Strict(m)) && (o.res.Ok? ==> ItemOk(o.tables, e, o.res.value))
    decreases x, 3, 0
  {
    if e.Object? && !x.RowBox? {
      CreateSafe(sc, T, e.target, x, m, cur);
    }
  }

  lemma {:induction false} AssignSafe(sc: Schema, T: Tables, a: Addr, x: Value, m: Mode)
    requires ValidSchema(sc) && Typed(sc, T) && Has(T, a) && a.c < |sc[a.t].props|
    requires sc[a.t].primary != Some(a.c)
    requires sc[a.t].props[a.c].typ.Array? && ValidProp(sc, sc[a.t].props[a.c].typ)
    ensures Safe(sc, T, Assign(sc, T, a, sc[a.t].props[a.c].typ.elem, x, m).tables, Strict(m))
    decreases x, 4, 0
  {
    var e := sc[a.t].props[a.c].typ.elem;
    var n := |ItemsAt(T, a)|;
    var U := Put(T, a, Many([]));
    PutSafe(sc, T, a, Many([]), Strict(m));
    if x != ListBox(a) && x.Vec? {
      if m.diff {
        var o := AssignFrom(sc, T, a, e, x, 0, n, m);
        AssignFromSafe(sc, T, a, x, 0, n, m);
        if o.res.Ok? {
          StillHas(sc, T, o.tables, a);
          RemoveTailSafe(sc, o.tables, a, |x.elems|, n, Strict(m));
          SafeTrans(sc, T, o.tables, RemoveTail(o.tables, a, |x.elems|, n).tables, Strict(m));
        }
      } else {
        StillHas(sc, T, U, a);
        AssignFromSafe(sc, U, a, x, 0, 0, m);
        SafeTrans(sc, T, U, AssignFrom(sc, U, a, e, x, 0, 0, m).tables, Strict(m));
      }
    }
  }

  lemma {:induction false} AssignFromSafe(sc: Schema, T: Tables, a: Addr, x: Value, k: nat, sz: nat, m: Mode)
    requires ValidSchema(sc) && Typed(sc, T) && Has(T, a) && a.c < |sc[a.t].props|
    requires sc[a.t].primary != Some(a.c)
    requires sc[a.t].props[a.c].typ.Array? && ValidProp(sc, sc[a.t].props[a.c].typ)
    requires x.Vec? && k <= |x.elems|
    ensures Safe(sc, T, AssignFrom(sc, T, a, sc[a.t].props[a.c].typ.elem, x, k, sz, m).tables, Strict(m))
    decreases x, 0, |x.elems| - k
  {
    var e := sc[a.t].props[a.c].typ.elem;
    if k < |x.elems| {
      var o := if k < sz then SetIfDifferent(sc, T, a, e, x.elems[k], k, m) else Add(sc, T, a, e, x.elems[k], m);
      if k < sz {
        SetIfDifferentSafe(sc, T, a, x.elems[k], k, m);
      } else {
        AddSafe(sc, T, a, x.elems[k], m);
      }
      if o.res.Ok? {
        StillHas(sc, T, o.tables, a);
        AssignFromSafe(sc, o.tables, a, x, k + 1, sz, m);
        SafeTrans(sc, T, o.tables, AssignFrom(sc, o.tables, a, e, x, k + 1, sz, m).tables, Strict(m));
      }
    }
  }

  lemma {:induction false} SetIfDifferentSafe(sc: Schema, T: Tables, a: Addr, y: Value, k: nat, m: Mode)
    requires ValidSchema(sc) && Typed(sc, T) && Has(T, a) && a.c < |sc[a.t].props|
    requires sc[a.t].primary != Some(a.c)
    requires sc[a.t].props[a.c].typ.Array? && ValidProp(sc, sc[a.t].props[a.c].typ)
    ensures Safe(sc, T, SetIfDifferent(sc, T, a, sc[a.t].props[a.c].typ.elem, y, k, m).tables, Strict(m))
    decreases y, 4, 0
  {
    var e := sc[a.t].props[a.c].typ.elem;
    var items := ItemsAt(T, a);
    StillHas(sc, T, T, a);
    if k < |items| {
      var cur := if items[k].Ref? then Some(items[k].row) else None;
      assert ItemOk(T, e, items[k]);
      var o := Resolve(sc, T, e, y, m.(diff := true), cur, true);
      ResolveSafe(sc, T, e, y, m.(diff := true), cur, true);
      StillHas(sc, T, o.tables, a);
      if o.res.Ok? && items[k] != o.res.value && k < |ItemsAt(o.tables, a)| {
        PutSafe(sc, o.tables, a, Many(ItemsAt(o.tables, a)[k := o.res.value]), Strict(m));
        SafeTrans(sc, T, o.tables, SetIfDifferent(sc, T, a, e, y, k, m).tables, Strict(m));
      }
    }
  }

  lemma {:induction false} AddSafe(sc: Schema, T: Tables, a: Addr, y: Value, m: Mode)
    requires ValidSchema(sc) && Typed(sc, T) && Has(T, a) && a.c < |sc[a.t].props|
    requires sc[a.t].primary != Some(a.c)
    requires sc[a.t].props[a.c].typ.Array? && ValidProp(sc, sc[a.t].props[a.c].typ)
    ensures Safe(sc, T, Add(sc, T, a, sc[a.t].props[a.c].typ.elem, y, m).tables, Strict(m))
    decreases y, 4, 0
  {
    var e := sc[a.t].props[a.c].typ.elem;
    var o := Resolve(sc, T, e, y, m.(diff := false), None, true);
    ResolveSafe(sc, T, e, y, m.(diff := false), None, true);
    StillHas(sc, T, o.tables, a);
    if o.res.Ok? {
      PutSafe(sc, o.tables, a, Many(ItemsAt(o.tables, a) + [o.res.value]), Strict(m));
      SafeTrans(sc, T, o.tables, Add(sc, T, a, e, y, m).tables, Strict(m));
    }
  }

  lemma {:induction false} RemoveTailSafe(sc: Schema, T: Tables, a: Addr, index: nat, sz: nat, strict: bool)
    requires Typed(sc, T) && Has(T, a) && a.c < |sc[a.t].props| && sc[a.t].props[a.c].typ.Array?
    requires sc[a.t].primary != Some(a.c)
    ensures Safe(sc, T, RemoveTail(T, a, index, sz).tables, strict)
    decreases sz
  {
    StillHas(sc, T, T, a);
    var items := ItemsAt(T, a);
    if index < sz && sz - 1 < |items| {
      var U := Put(T, a, Many(items[..sz - 1] + items[sz..]));
      PutSafe(sc, T, a, Many(items[..sz - 1] + items[sz..]), strict);
      StillHas(sc, T, U, a);
      RemoveTailSafe(sc, U, a, index, sz - 1, strict);
      SafeTrans(sc, T, U, RemoveTail(U, a, index, sz - 1).tables, strict);
    }
  }
}
