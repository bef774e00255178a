/** When Object::create and the property setters succeed, what they refuse, and what a new
    row holds where the value says nothing. */
module UpsertOutcomes {
  import opened RealmModel
  import opened UpsertSpec
  import opened UpsertInvariant
  import opened UpsertFrame
  import opened UpsertReadBack
  import opened UpsertLists

  // ---------- what the value has to supply ----------

  predicate Supplied(v: Value, name: string) {
    v.Dict? && name in v.fields
  }

  // A required property needs a value that is not null.
  predicate Filled(v: Value, p: Property) {
    Required(p.typ) ==> Supplied(v, p.name) && !v.fields[p.name].Null?
  }

  // The primary key may be left out or null only if it is nullable, and must be of its kind.
  predicate KeyGiven(ot: ObjectType, v: Value)
    requires ot.primary.Some? && ot.primary.value < |ot.props|
  {
    var p := ot.props[ot.primary.value];
    && v.Dict? && Filled(v, p)
    && (Supplied(v, p.name) && !v.fields[p.name].Null? ==>
          v.fields[p.name].Plain? && p.typ.elem.Basic? && Fits(p.typ.elem.kind, v.fields[p.name].s))
  }

  function GivenKey(ot: ObjectType, v: Value): Cell
    requires ot.primary.Some? && ot.primary.value < |ot.props| && KeyGiven(ot, v)
  {
    var name := ot.props[ot.primary.value].name;
    if Supplied(v, name) && !v.fields[name].Null? then One(DataItem(v.fields[name].s)) else Empty
  }

  lemma KeyForIs(sc: Schema, t: nat, v: Value)
    requires ValidSchema(sc) && t < |sc| && sc[t].primary.Some? && ValidType(sc, sc[t])
    ensures KeyFor(sc[t], v).Ok? <==> KeyGiven(sc[t], v)
    ensures KeyGiven(sc[t], v) ==> KeyFor(sc[t], v) == Ok(GivenKey(sc[t], v))
  {
  }

  // Some row of table t has key k.
  predicate Taken(sc: Schema, T: Tables, t: nat, k: Cell) {
    exists r :: 0 <= r < Size(T, t) && KeyAt(sc, T, t, r) == k
  }

  lemma TakenIs(sc: Schema, T: Tables, t: nat, k: Cell)
    ensures Taken(sc, T, t, k) <==> FindFirst(sc, T, t, k).Some?
  {
  }

  // ---------- refusals ----------

  // An object type with a key is refused without a trace if the value does not give the key,
  // or if the key is taken and the call is neither an upsert nor in a migration.
  lemma CreateRefuses(sc: Schema, T: Tables, t: nat, v: Value, m: Mode, cur: Option<nat>)
    requires ValidSchema(sc) && t < |sc| && sc[t].primary.Some? && ValidType(sc, sc[t])
    ensures var o := Create(sc, T, t, v, m, cur);
            var p := sc[t].props[sc[t].primary.value];
            && (!v.Dict? ==> o == Out(T, Err(BadCast), 0))
            && (v.Dict? && Required(p.typ) && p.name !in v.fields ==> o == Out(T, Err(MissingValue), 0))
            && (v.Dict? && Required(p.typ) && p.name in v.fields && v.fields[p.name].Null? ==> o == Out(T, Err(NullKey), 0))
            && (!KeyGiven(sc[t], v) ==> o.res.Err? && o.tables == T && o.writes == 0)
            && (KeyGiven(sc[t], v) && Taken(sc, T, t, GivenKey(sc[t], v)) && !m.tryUpdate && !m.migrating ==>
                  o == Out(T, Err(DuplicateKey), 0))
  {
    hide Populate;
    KeyForIs(sc, t, v);
    if KeyGiven(sc[t], v) {
      TakenIs(sc, T, t, GivenKey(sc[t], v));
    }
  }

  // A plain create outside a migration that succeeds has made a new row, and no row had its
  // key; so does every create of an object without a key in full mode.
  lemma PlainCreateIsNew(sc: Schema, T: Tables, t: nat, v: Value, m: Mode, cur: Option<nat>)
    requires ValidSchema(sc) && Typed(sc, T) && t < |sc|
    requires if sc[t].primary.Some? then !m.tryUpdate && !m.migrating else !m.diff
    ensures ValidType(sc, sc[t])
    ensures var o := Create(sc, T, t, v, m, cur);
            o.res.Ok? ==>
              && o.res.value == Size(T, t)
              && (sc[t].primary.Some? ==> KeyGiven(sc[t], v) && !Taken(sc, T, t, GivenKey(sc[t], v)))
  {
    hide Populate, Typed;
    assert ValidType(sc, sc[t]);
    var n := Size(T, t);
    if sc[t].primary.Some? {
      KeyForIs(sc, t, v);
      if KeyGiven(sc[t], v) {
        TakenIs(sc, T, t, GivenKey(sc[t], v));
        KeyCellOk(sc, T, t, v);
        if FindFirst(sc, T, t, GivenKey(sc[t], v)).None? {
          NewKeyedRow(sc, T, t, GivenKey(sc[t], v));
          PopulateSafe(sc, Put(AddRow(sc, T, t), Addr(t, n, sc[t].primary.value), GivenKey(sc[t], v)), t, n, v, m, true, 0);
        }
      }
    } else {
      AddRowTyped(sc, T, t);
      PopulateSafe(sc, AddRow(sc, T, t), t, n, v, m, true, 0);
    }
  }

  // A failure after the key has been found free leaves the new row, with its key.
  lemma FailureLeavesRow(sc: Schema, T: Tables, t: nat, v: Value, m: Mode, cur: Option<nat>)
    requires ValidSchema(sc) && Typed(sc, T) && t < |sc| && sc[t].primary.Some? && ValidType(sc, sc[t])
    requires KeyGiven(sc[t], v) && !Taken(sc, T, t, GivenKey(sc[t], v))
    ensures var U := Create(sc, T, t, v, m, cur).tables;
            Size(U, t) > Size(T, t) && KeyAt(sc, U, t, Size(T, t)) == GivenKey(sc[t], v)
  {
    hide Populate;
    var k, n := GivenKey(sc[t], v), Size(T, t);
    KeyForIs(sc, t, v);
    TakenIs(sc, T, t, k);
    NewKeyedRow(sc, T, t, k);
    PopulateSafe(sc, Put(AddRow(sc, T, t), Addr(t, n, sc[t].primary.value), k), t, n, v, m, true, 0);
  }

  // So does a failure inside a nested create: the row that a link property has made stays,
  // whatever happens to the rest of its value and to the properties after it.
  lemma FailureLeavesNested(sc: Schema, T: Tables, t: nat, r: nat, v: Value, m: Mode, created: bool, i: nat, u: nat, x: Value)
    requires ValidSchema(sc) && Typed(sc, T) && t < |sc| && r < Size(T, t) && i < |sc[t].props|
    requires u < |sc| && sc[u].primary.Some? && ValidType(sc, sc[u]) && sc[t].props[i].typ == Single(Object(u), true)
    requires sc[t].primary != Some(i) && Lookup(v, sc[t].props[i].name) == Ok(Some(x))
    requires KeyGiven(sc[u], x) && !Taken(sc, T, u, GivenKey(sc[u], x))
    ensures var U := Populate(sc, T, t, r, v, m, created, true, i).tables;
            Size(U, u) > Size(T, u) && KeyAt(sc, U, u, Size(T, u)) == GivenKey(sc[u], x)
  {
    hide Populate, Create, KeyGiven, GivenKey, Taken;
    var a := Addr(t, r, i);
    assert x.Dict? by { KeyForIs(sc, u, x); }
    PopulateSets(sc, T, t, r, v, m, created, i, x);
    FailureLeavesRow(sc, T, u, x, m, LinkAt(T, a));
    assert RowOk(T, sc[t], T[t][r]);
    SetPropSafe(sc, T, a, x, m);
    var c := Create(sc, T, u, x, m, LinkAt(T, a));
    var o := SetProp(sc, T, a, sc[t].props[i].typ, x, m);
    CreateSafe(sc, T, u, x, m, LinkAt(T, a)) by { LinkInside(sc, T, a, u); }
    if c.res.Ok? {
      StillHas(sc, T, c.tables, a);
      PutSafe(sc, c.tables, a, One(Ref(c.res.value)), true);
    }
    assert KeyAt(sc, o.tables, u, Size(T, u)) == KeyAt(sc, c.tables, u, Size(T, u));
    if o.res.Ok? {
      PopulateSafe(sc, o.tables, t, r, v, m, created, i + 1);
    }
  }

  lemma LinkInside(sc: Schema, T: Tables, a: Addr, u: nat)
    requires Typed(sc, T) && Has(T, a) && a.c < |sc[a.t].props| && sc[a.t].props[a.c].typ == Single(Object(u), true)
    ensures LinkAt(T, a).Some? ==> LinkAt(T, a).value < Size(T, u)
  {
    assert RowOk(T, sc[a.t], T[a.t][a.r]);
  }

  // ---------- a new row, where the value says nothing ----------

  lemma {:induction false} PopulateFills(sc: Schema, T: Tables, t: nat, r: nat, v: Value, m: Mode, i: nat, c: nat)
    requires ValidSchema(sc) && t < |sc| && i <= c < |sc[t].props| && sc[t].primary != Some(c)
    requires Populate(sc, T, t, r, v, m, true, true, i).res.Ok?
    ensures Filled(v, sc[t].props[c])
    decreases |sc[t].props| - i
  {
    hide SetProp;
    assert ValidType(sc, sc[t]) && ValidProp(sc, sc[t].props[i].typ);
    if i < c {
      var U := if sc[t].primary == Some(i) || Lookup(v, sc[t].props[i].name) == Ok(None) then T
               else SetProp(sc, T, Addr(t, r, i), sc[t].props[i].typ, Lookup(v, sc[t].props[i].name).value.value, m).tables;
      PopulateFills(sc, U, t, r, v, m, i + 1, c);
    }
  }

  // Setting one property leaves the others of its row alone.
  lemma SetsOne(sc: Schema, T: Tables, a: Addr, x: Value, m: Mode)
    requires Slot(sc, T, a) && Tracked(sc, m) && Owner(sc, T, a) !! KeysVal(sc, TypeOf(sc, a), x)
    ensures var o := SetProp(sc, T, a, TypeOf(sc, a), x, m);
            o.res.Ok? ==> OnlyCell(T, o.tables, a)
  {
    hide Frame, RowOk, Resolve, Assign;
    var p := TypeOf(sc, a);
    if p.Array? {
      AssignIsInput(sc, T, a, x, m);
    } else if !(p.nullable && x.Null?) {
      ResolveStays(sc, T, a, p.elem, x, m, LinkAt(T, a), false);
    }
  }

  lemma {:induction false} PopulateOmits(sc: Schema, T: Tables, t: nat, r: nat, v: Value, m: Mode, created: bool, i: nat, c: nat)
    requires ValidSchema(sc) && Typed(sc, T) && t < |sc| && Tracked(sc, m)
    requires r < Size(T, t) && i <= |sc[t].props| && c < |sc[t].props|
    requires IdOf(sc, T, t, r) !in KeysFrom(sc, t, v, i)
    requires sc[t].primary == Some(c) || !Supplied(v, sc[t].props[c].name)
    ensures var o := Populate(sc, T, t, r, v, m, created, true, i);
            o.res.Ok? ==> CellAt(o.tables, Addr(t, r, c)) == CellAt(T, Addr(t, r, c))
    decreases |sc[t].props| - i
  {
    hide Frame, SetProp, KeepsKeys, ItemOk;
    if i < |sc[t].props| {
      var p := sc[t].props[i];
      assert ValidType(sc, sc[t]) && ValidProp(sc, p.typ);
      if sc[t].primary == Some(i) || Lookup(v, p.name) == Ok(None) {
        PopulateOmits(sc, T, t, r, v, m, created, i + 1, c);
      } else if Lookup(v, p.name).Ok? {
        var a, x := Addr(t, r, i), Lookup(v, p.name).value.value;
        assert RowOk(T, sc[t], T[t][r]);
        SetPropFrame(sc, T, a, x, m);
        SetsOne(sc, T, a, x, m);
        var o := SetProp(sc, T, a, p.typ, x, m);
        if o.res.Ok? {
          SlotStays(sc, T, o.tables, a, Owner(sc, T, a) + KeysVal(sc, p.typ, x));
          PopulateOmits(sc, o.tables, t, r, v, m, created, i + 1, c);
        }
      }
    }
  }

  // After a successful create that made a new row, every required property was supplied, and
  // every omitted one reads null, or is an empty list.
  lemma NewRowDefaults(sc: Schema, T: Tables, t: nat, v: Value, m: Mode, cur: Option<nat>, c: nat)
    requires ValidSchema(sc) && Typed(sc, T) && t < |sc| && Tracked(sc, m) && c < |sc[t].props|
    requires OwnKey(sc, t, v) !! KeysFrom(sc, t, v, 0)
    requires Create(sc, T, t, v, m, cur).res.Ok? && Create(sc, T, t, v, m, cur).res.value >= Size(T, t)
    ensures var o := Create(sc, T, t, v, m, cur);
            var a := Addr(t, o.res.value, c);
            && Filled(v, sc[t].props[c])
            && (!Supplied(v, sc[t].props[c].name) ==>
                  if sc[t].props[c].typ.Array? then CellAt(o.tables, a) == Many([]) && GetProperty(sc, o.tables, a) == ListBox(a)
                  else GetProperty(sc, o.tables, a) == Null)
  {
    hide Populate, Frame, Typed, Supplied;
    assert ValidType(sc, sc[t]) && ValidProp(sc, sc[t].props[c].typ);
    var n := Size(T, t);
    AddRowTyped(sc, T, t);
    var N := AddRow(sc, T, t);
    assert CellAt(N, Addr(t, n, c)) == DefaultCell(sc[t].props[c].typ) by { NewRowIs(sc, T, t, c); }
    if sc[t].primary.None? {
      NewRowHolds(sc, N, t, n, v, m, c);
    } else {
      var k, pk := KeyFor(sc[t], v).value, sc[t].primary.value;
      KeyForIs(sc, t, v);
      KeyCellOk(sc, T, t, v);
      if FindFirst(sc, T, t, k).Some? {
        PopulateSafe(sc, T, t, FindFirst(sc, T, t, k).value, v, m, false, 0);
        assert false;
      } else {
        var U := Put(N, Addr(t, n, pk), k);
        NewKeyedRow(sc, T, t, k);
        NewRowHolds(sc, U, t, n, v, m, c);
      }
    }
  }

  lemma NewRowIs(sc: Schema, T: Tables, t: nat, c: nat)
    requires Typed(sc, T) && t < |sc| && c < |sc[t].props|
    ensures CellAt(AddRow(sc, T, t), Addr(t, Size(T, t), c)) == DefaultCell(sc[t].props[c].typ)
    ensures forall k :: sc[t].primary.Some? && c != sc[t].primary.value ==>
              CellAt(Put(AddRow(sc, T, t), Addr(t, Size(T, t), sc[t].primary.value), k), Addr(t, Size(T, t), c))
              == DefaultCell(sc[t].props[c].typ)
  {
  }

  lemma NewRowHolds(sc: Schema, U: Tables, t: nat, n: nat, v: Value, m: Mode, c: nat)
    requires ValidSchema(sc) && Typed(sc, U) && t < |sc| && Tracked(sc, m) && c < |sc[t].props| && n < Size(U, t)
    requires IdOf(sc, U, t, n) !in KeysFrom(sc, t, v, 0)
    requires Populate(sc, U, t, n, v, m, true, true, 0).res.Ok?
    ensures var o := Populate(sc, U, t, n, v, m, true, true, 0);
            && o.res.value == n
            && (sc[t].primary != Some(c) ==> Filled(v, sc[t].props[c]))
            && (sc[t].primary == Some(c) || !Supplied(v, sc[t].props[c].name) ==>
                  CellAt(o.tables, Addr(t, n, c)) == CellAt(U, Addr(t, n, c)))
  {
    PopulateSafe(sc, U, t, n, v, m, true, 0);
    if sc[t].primary != Some(c) {
      PopulateFills(sc, U, t, n, v, m, 0, c);
    }
    if sc[t].primary == Some(c) || !Supplied(v, sc[t].props[c].name) {
      PopulateOmits(sc, U, t, n, v, m, true, 0, c);
    }
  }
}
