/** Object::set_property_value: what a caller's set of one property does. */
module UpsertSets {
  import opened RealmModel
  import opened UpsertSpec
  import opened UpsertInvariant
  import opened UpsertFrame
  import opened UpsertReadBack
  import opened UpsertOutcomes
  import opened UpsertSuccess

  // A set of a property other than the primary key succeeds if the tables accept the value,
  // and only if they accept it loosely.  Then the property holds the value and reads it back,
  // no other cell of the row changes, and no row but those that the value names.
  lemma SetReadsBack(sc: Schema, T: Tables, a: Addr, x: Value, m: Mode)
    requires Slot(sc, T, a) && Strict(m)
    requires Owner(sc, T, a) !! KeysVal(sc, TypeOf(sc, a), x) && DistinctVal(sc, TypeOf(sc, a), x)
    ensures var p := TypeOf(sc, a);
            var o := SetNamed(sc, T, a, x, m);
            var got := GetProperty(sc, o.tables, a);
            && (AcceptsVal(sc, T, p, x, m.tryUpdate, false) ==> o.res.Ok?)
            && (o.res.Ok? ==>
                  && AcceptsVal(sc, T, p, x, m.tryUpdate, true)
                  && HoldsVal(sc, o.tables, T, a, p, x) && OnlyCell(T, o.tables, a)
                  && Frame(sc, T, o.tables, Owner(sc, T, a) + KeysVal(sc, p, x))
                  && (x.Plain? && p.elem.Basic? ==> got == x)
                  && (x.Null? && p.Single? ==> got == Null)
                  && (x.Null? && p.Array? ==> ItemsAt(o.tables, a) == [])
                  && (x.RowBox? ==> p.elem.Object? && got == RowBox(p.elem.target, x.row))
                  && (x.Dict? ==> p.elem.Object? && got.RowBox? && got.table == p.elem.target && HoldsObj(sc, o.tables, T, got.table, x, got.row)))
  {
    hide Frame, SetProp, AcceptsItem, AcceptsElems, HoldsObj;
    var n := m.(diff := false);
    GrowsRefl(T);
    OwnerKnown(sc, T, a);
    DecideVal(sc, T, a, x, n);
    ReadSetProp(sc, T, T, a, x, n);
    SetPropFrame(sc, T, a, x, n);
  }

  lemma OwnerKnown(sc: Schema, T: Tables, a: Addr)
    requires Has(T, a)
    ensures Known(Owner(sc, T, a), T)
  {
  }

  // A scalar property takes a value of its kind, and null if it may, in one write, and
  // refuses everything else without a trace; so does the primary key in a migration, and
  // outside one it refuses everything.
  lemma SetScalar(sc: Schema, T: Tables, a: Addr, x: Value, m: Mode)
    requires ValidSchema(sc) && Typed(sc, T) && Has(T, a) && a.c < |sc[a.t].props|
    requires TypeOf(sc, a).Single? && TypeOf(sc, a).elem.Basic?
    ensures var p := TypeOf(sc, a);
            var o := SetNamed(sc, T, a, x, m);
            if sc[a.t].primary == Some(a.c) && !m.migrating then o == Out(T, Err(ModifyPrimaryKey), 0)
            else if x.Plain? && Fits(p.elem.kind, x.s) then
              o == Out(Put(T, a, One(DataItem(x.s))), Ok(()), 1) && GetProperty(sc, o.tables, a) == x
            else if x.Null? && p.nullable then
              o == Out(Put(T, a, Empty), Ok(()), 1) && GetProperty(sc, o.tables, a) == Null
            else o.res.Err? && o.tables == T && o.writes == 0
  {
    hide Create, Assign;
    var p, n := TypeOf(sc, a), m.(diff := false);
    assert ValidType(sc, sc[a.t]);
    assert Unbox(p.elem.kind, x).Ok? <==> x.Plain? && Fits(p.elem.kind, x.s);
    assert Resolve(sc, T, p.elem, x, n, LinkAt(T, a), false)
        == if x.Plain? && Fits(p.elem.kind, x.s) then Out(T, Ok(DataItem(x.s)), 0) else Out(T, Err(BadCast), 0);
    assert !(sc[a.t].primary == Some(a.c) && !m.migrating) ==> SetNamed(sc, T, a, x, m) == SetProp(sc, T, a, p, x, n);
  }
}
