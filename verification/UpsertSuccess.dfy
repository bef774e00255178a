/** Exactly when Object::create succeeds, for trees in which no key occurs twice. */
module UpsertSuccess {
  import opened RealmModel
  import opened UpsertSpec
  import opened UpsertInvariant
  import opened UpsertFrame
  import opened UpsertReadBack
  import opened UpsertLists
  import opened UpsertOutcomes

  // The tables T accept v as an object of type t.  The key is given, and free if the call is
  // not an upsert; in a new row every required property is filled; in no row is one null; and
  // every value fits.  A managed row must be one of the target table, and a managed list is
  // not accepted; with `loose`, these two are not looked at.
  predicate AcceptsObj(sc: Schema, T: Tables, t: nat, v: Value, upsert: bool, loose: bool)
    requires ValidSchema(sc) && t < |sc|
    decreases v, 2, 0
  {
    assert ValidType(sc, sc[t]);
    if sc[t].primary.None? then AcceptsFrom(sc, T, t, v, upsert, loose, true, 0)
    else
      && KeyGiven(sc[t], v)
      && var taken := Taken(sc, T, t, GivenKey(sc[t], v));
         (taken ==> upsert) && AcceptsFrom(sc, T, t, v, upsert, loose, !taken, 0)
  }

  predicate AcceptsFrom(sc: Schema, T: Tables, t: nat, v: Value, upsert: bool, loose: bool, created: bool, i: nat)
    requires ValidSchema(sc) && t < |sc| && i <= |sc[t].props|
    decreases v, 1, |sc[t].props| - i
  {
    if i == |sc[t].props| then true
    else if sc[t].primary == Some(i) then AcceptsFrom(sc, T, t, v, upsert, loose, created, i + 1)
    else
      var p := sc[t].props[i];
      assert ValidType(sc, sc[t]) && ValidProp(sc, p.typ);
      && v.Dict?
      && (created ==> Filled(v, p))
      && (Supplied(v, p.name) ==>
            !(v.fields[p.name].Null? && Required(p.typ)) && AcceptsVal(sc, T, p.typ, v.fields[p.name], upsert, loose))
      && AcceptsFrom(sc, T, t, v, upsert, loose, created, i + 1)
  }

  predicate AcceptsVal(sc: Schema, T: Tables, p: PropType, x: Value, upsert: bool, loose: bool)
    requires ValidSchema(sc) && ValidProp(sc, p)
    decreases x, 4, 0
  {
    match p
    case Single(e, nullable) => (nullable && x.Null?) || AcceptsItem(sc, T, e, x, upsert, false, loose)
    case Array(e) => x.Null? || (x.ListBox? && loose) || (x.Vec? && AcceptsElems(sc, T, e, x, upsert, loose, 0))
  }

  predicate AcceptsItem(sc: Schema, T: Tables, e: Elem, y: Value, upsert: bool, inList: bool, loose: bool)
    requires ValidSchema(sc) && (e.Object? ==> e.target < |sc|)
    decreases y, 3, 0
  {
    match e
    case Basic(k) => y.Plain? && Fits(k, y.s)
    case Object(target) =>
      if y.RowBox? then (inList ==> y.table == target) && (loose || y.row < Size(T, target))
      else AcceptsObj(sc, T, target, y, upsert, loose)
  }

  predicate AcceptsElems(sc: Schema, T: Tables, e: Elem, x: Value, upsert: bool, loose: bool, k: nat)
    requires ValidSchema(sc) && (e.Object? ==> e.target < |sc|) && x.Vec? && k <= |x.elems|
    decreases x, 0, |x.elems| - k
  {
    k < |x.elems| ==> AcceptsItem(sc, T, e, x.elems[k], upsert, true, loose) && AcceptsElems(sc, T, e, x, upsert, loose, k + 1)
  }

  // ---------- calls with other keys do not change what is accepted ----------

  // From T to U acceptance is kept; loosely, it is the same.
  predicate Kept(before: bool, after: bool, loose: bool) {
    (before ==> after) && (loose && after ==> before)
  }

  lemma {:induction false} KeptObj(sc: Schema, T: Tables, U: Tables, t: nat, v: Value, upsert: bool, loose: bool, K: set<Key>)
    requires ValidSchema(sc) && t < |sc| && |T| == |sc| && Frame(sc, T, U, K) && K !! KeysOf(sc, t, v)
    ensures Kept(AcceptsObj(sc, T, t, v, upsert, loose), AcceptsObj(sc, U, t, v, upsert, loose), loose)
    decreases v, 2, 0
  {
    hide Frame, KeyGiven, GivenKey;
    assert ValidType(sc, sc[t]);
    if sc[t].primary.None? {
      KeptFrom(sc, T, U, t, v, upsert, loose, true, 0, K);
    } else {
      KeyForIs(sc, t, v);
      if KeyGiven(sc[t], v) {
        var k := GivenKey(sc[t], v);
        assert Key(t, k) in OwnKey(sc, t, v);
        FindStable(sc, T, U, t, k, K);
        TakenIs(sc, T, t, k);
        TakenIs(sc, U, t, k);
        KeptFrom(sc, T, U, t, v, upsert, loose, !Taken(sc, T, t, k), 0, K);
      }
    }
  }

  lemma {:induction false} KeptFrom(sc: Schema, T: Tables, U: Tables, t: nat, v: Value, upsert: bool, loose: bool, created: bool, i: nat, K: set<Key>)
    requires ValidSchema(sc) && t < |sc| && i <= |sc[t].props| && |T| == |sc| && Frame(sc, T, U, K) && K !! KeysFrom(sc, t, v, i)
    ensures Kept(AcceptsFrom(sc, T, t, v, upsert, loose, created, i), AcceptsFrom(sc, U, t, v, upsert, loose, created, i), loose)
    decreases v, 1, |sc[t].props| - i
  {
    hide Frame;
    if i < |sc[t].props| {
      var p := sc[t].props[i];
      assert ValidType(sc, sc[t]) && ValidProp(sc, p.typ);
      if sc[t].primary == Some(i) || v.Dict? {
        KeptFrom(sc, T, U, t, v, upsert, loose, created, i + 1, K);
        if sc[t].primary != Some(i) && Supplied(v, p.name) {
          KeptVal(sc, T, U, p.typ, v.fields[p.name], upsert, loose, K);
        }
      }
    }
  }

  lemma {:induction false} KeptVal(sc: Schema, T: Tables, U: Tables, p: PropType, x: Value, upsert: bool, loose: bool, K: set<Key>)
    requires ValidSchema(sc) && ValidProp(sc, p) && |T| == |sc| && Frame(sc, T, U, K) && K !! KeysVal(sc, p, x)
    ensures Kept(AcceptsVal(sc, T, p, x, upsert, loose), AcceptsVal(sc, U, p, x, upsert, loose), loose)
    decreases x, 4, 0
  {
    hide Frame;
    if p.Array? {
      if x.Vec? {
        KeptElems(sc, T, U, p.elem, x, upsert, loose, 0, K);
      }
    } else if !x.Null? {
      KeptItem(sc, T, U, p.elem, x, upsert, false, loose, K);
    } else if !p.nullable && p.elem.Object? {
      assert false;
    }
  }

  lemma {:induction false} KeptItem(sc: Schema, T: Tables, U: Tables, e: Elem, y: Value, upsert: bool, inList: bool, loose: bool, K: set<Key>)
    requires ValidSchema(sc) && (e.Object? ==> e.target < |sc|) && |T| == |sc| && Frame(sc, T, U, K) && K !! KeysItem(sc, e, y)
    ensures Kept(AcceptsItem(sc, T, e, y, upsert, inList, loose), AcceptsItem(sc, U, e, y, upsert, inList, loose), loose)
    decreases y, 3, 0
  {
    if e.Object? && !y.RowBox? {
      KeptObj(sc, T, U, e.target, y, upsert, loose, K);
    }
  }

  lemma {:induction false} KeptElems(sc: Schema, T: Tables, U: Tables, e: Elem, x: Value, upsert: bool, loose: bool, k: nat, K: set<Key>)
    requires ValidSchema(sc) && (e.Object? ==> e.target < |sc|) && x.Vec? && k <= |x.elems|
    requires |T| == |sc| && Frame(sc, T, U, K) && K !! KeysElems(sc, e, x, k)
    ensures Kept(AcceptsElems(sc, T, e, x, upsert, loose, k), AcceptsElems(sc, U, e, x, upsert, loose, k), loose)
    decreases x, 0, |x.elems| - k
  {
    hide Frame;
    if k < |x.elems| {
      KeptItem(sc, T, U, e, x.elems[k], upsert, true, loose, K);
      KeptElems(sc, T, U, e, x, upsert, loose, k + 1, K);
    }
  }

  // ---------- success ----------

  // The outcome is Ok if the tables accept the value, and only if they accept it loosely.
  predicate Decides<R>(strict: bool, loose: bool, o: Out<R>) {
    (strict ==> o.res.Ok?) && (o.res.Ok? ==> loose)
  }

  lemma {:induction false} DecideObj(sc: Schema, T: Tables, t: nat, v: Value, m: Mode, cur: Option<nat>)
    requires ValidSchema(sc) && Typed(sc, T) && t < |sc| && Tracked(sc, m) && DistinctOf(sc, t, v)
    ensures Decides(AcceptsObj(sc, T, t, v, m.tryUpdate, false), AcceptsObj(sc, T, t, v, m.tryUpdate, true),
                    Create(sc, T, t, v, m, cur))
    decreases v, 2, 0
  {
    hide Frame, Typed, Populate, KeyGiven, GivenKey, AcceptsFrom;
    assert ValidType(sc, sc[t]);
    if sc[t].primary.None? {
      var n, N := Size(T, t), AddRow(sc, T, t);
      AddRowTyped(sc, T, t);
      AddRowFrame(sc, T, t);
      DecideFrom(sc, N, t, n, v, m, true, 0);
      KeptFrom(sc, T, N, t, v, m.tryUpdate, false, true, 0, {});
      KeptFrom(sc, T, N, t, v, m.tryUpdate, true, true, 0, {});
    } else {
      KeyForIs(sc, t, v);
      if KeyGiven(sc[t], v) {
        var k := GivenKey(sc[t], v);
        TakenIs(sc, T, t, k);
        if !Taken(sc, T, t, k) || m.tryUpdate {
          var (U, r) := Entered(sc, T, t, k);
          EnteredFrame(sc, T, t, v);
          assert Key(t, k) in OwnKey(sc, t, v);
          DecideFrom(sc, U, t, r, v, m, !Taken(sc, T, t, k), 0);
          KeptFrom(sc, T, U, t, v, m.tryUpdate, false, !Taken(sc, T, t, k), 0, {Key(t, k)});
          KeptFrom(sc, T, U, t, v, m.tryUpdate, true, !Taken(sc, T, t, k), 0, {Key(t, k)});
        }
      }
    }
  }

  lemma {:induction false} DecideFrom(sc: Schema, T: Tables, t: nat, r: nat, v: Value, m: Mode, created: bool, i: nat)
    requires ValidSchema(sc) && Typed(sc, T) && t < |sc| && Tracked(sc, m) && r < Size(T, t) && i <= |sc[t].props|
    requires IdOf(sc, T, t, r) !in KeysFrom(sc, t, v, i) && DistinctFrom(sc, t, v, i)
    ensures Decides(AcceptsFrom(sc, T, t, v, m.tryUpdate, false, created, i), AcceptsFrom(sc, T, t, v, m.tryUpdate, true, created, i),
                    Populate(sc, T, t, r, v, m, created, true, i))
    decreases v, 1, |sc[t].props| - i, 1
  {
    hide Frame, Typed, SetProp, AcceptsVal;
    if i < |sc[t].props| {
      var p := sc[t].props[i];
      assert ValidType(sc, sc[t]) && ValidProp(sc, p.typ);
      if sc[t].primary == Some(i) || Lookup(v, p.name) == Ok(None) {
        DecideFrom(sc, T, t, r, v, m, created, i + 1);
      } else if Lookup(v, p.name).Ok? {
        var x := v.fields[p.name];
        if !(x.Null? && Required(p.typ)) {
          DecidePresent(sc, T, t, r, v, m, created, i, x);
        }
      }
    }
  }

  lemma {:induction false} DecidePresent(sc: Schema, T: Tables, t: nat, r: nat, v: Value, m: Mode, created: bool, i: nat, x: Value)
    requires ValidSchema(sc) && Typed(sc, T) && t < |sc| && Tracked(sc, m) && r < Size(T, t) && i < |sc[t].props|
    requires sc[t].primary != Some(i) && Lookup(v, sc[t].props[i].name) == Ok(Some(x)) && !(x.Null? && Required(sc[t].props[i].typ))
    requires IdOf(sc, T, t, r) !in KeysFrom(sc, t, v, i) && DistinctFrom(sc, t, v, i)
    ensures Decides(AcceptsFrom(sc, T, t, v, m.tryUpdate, false, created, i), AcceptsFrom(sc, T, t, v, m.tryUpdate, true, created, i),
                    Populate(sc, T, t, r, v, m, created, true, i))
    decreases v, 1, |sc[t].props| - i, 0
  {
    hide Frame, KeepsKeys, ItemOk, SetProp, Populate, AcceptsVal;
    PopulateSets(sc, T, t, r, v, m, created, i, x);
    var p, a := sc[t].props[i], Addr(t, r, i);
    assert RowOk(T, sc[t], T[t][r]);
    var o := SetProp(sc, T, a, p.typ, x, m);
    SetPropFrame(sc, T, a, x, m);
    DecideVal(sc, T, a, x, m);
    if o.res.Ok? {
      var K := Owner(sc, T, a) + KeysVal(sc, p.typ, x);
      SlotStays(sc, T, o.tables, a, K);
      DecideFrom(sc, o.tables, t, r, v, m, created, i + 1);
      KeptFrom(sc, T, o.tables, t, v, m.tryUpdate, false, created, i + 1, K);
      KeptFrom(sc, T, o.tables, t, v, m.tryUpdate, true, created, i + 1, K);
    }
  }

  lemma {:induction false} DecideVal(sc: Schema, T: Tables, a: Addr, x: Value, m: Mode)
    requires Slot(sc, T, a) && Tracked(sc, m)
    requires Owner(sc, T, a) !! KeysVal(sc, TypeOf(sc, a), x) && DistinctVal(sc, TypeOf(sc, a), x)
    ensures var p := TypeOf(sc, a);
            Decides(AcceptsVal(sc, T, p, x, m.tryUpdate, false), AcceptsVal(sc, T, p, x, m.tryUpdate, true),
                    SetProp(sc, T, a, p, x, m))
    decreases x, 5, 0
  {
    hide Frame, RowOk, Resolve, Assign, AcceptsItem, AcceptsElems;
    var p := TypeOf(sc, a);
    if p.Array? {
      DecideAssign(sc, T, a, x, m);
    } else if !(p.nullable && x.Null?) {
      DecideItem(sc, T, p.elem, x, m, LinkAt(T, a), false);
    }
  }

  lemma {:induction false} DecideItem(sc: Schema, T: Tables, e: Elem, y: Value, m: Mode, cur: Option<nat>, inList: bool)
    requires ValidSchema(sc) && Typed(sc, T) && (e.Object? ==> e.target < |sc|) && Tracked(sc, m) && DistinctItem(sc, e, y)
    ensures Decides(AcceptsItem(sc, T, e, y, m.tryUpdate, inList, false), AcceptsItem(sc, T, e, y, m.tryUpdate, inList, true),
                    Resolve(sc, T, e, y, m, cur, inList))
    decreases y, 3, 0
  {
    hide Typed, Create;
    if e.Object? && !y.RowBox? {
      DecideObj(sc, T, e.target, y, m, cur);
    }
  }

  lemma {:induction false} DecideAssign(sc: Schema, T: Tables, a: Addr, x: Value, m: Mode)
    requires Slot(sc, T, a) && TypeOf(sc, a).Array? && Tracked(sc, m)
    requires Owner(sc, T, a) !! KeysVal(sc, TypeOf(sc, a), x) && DistinctVal(sc, TypeOf(sc, a), x)
    ensures var p := TypeOf(sc, a);
            Decides(AcceptsVal(sc, T, p, x, m.tryUpdate, false), AcceptsVal(sc, T, p, x, m.tryUpdate, true),
                    Assign(sc, T, a, p.elem, x, m))
    decreases x, 4, 0
  {
    hide Frame, RowOk, AssignFrom, AcceptsElems, RemoveTail;
    var e, n, own := TypeOf(sc, a).elem, |ItemsAt(T, a)|, Owner(sc, T, a);
    StillHas(sc, T, T, a) by { GrowsRefl(T); }
    if x.Vec? {
      if m.diff {
        var o := AssignFrom(sc, T, a, e, x, 0, n, m);
        DecideElems(sc, T, a, x, 0, n, m);
        if o.res.Ok? {
          LoopNames(sc, T, T, a, x, 0, n, m) by { GrowsRefl(T); }
          RemoveTailIs(o.tables, a, |x.elems|, n);
        }
      } else {
        var U := Put(T, a, Many([]));
        PutSafe(sc, T, a, Many([]), true);
        PutFrame(sc, T, a, Many([]), own);
        SlotStays(sc, T, U, a, own);
        DecideElems(sc, U, a, x, 0, 0, m);
        KeptElems(sc, T, U, e, x, m.tryUpdate, false, 0, own);
        KeptElems(sc, T, U, e, x, m.tryUpdate, true, 0, own);
      }
    }
  }

  lemma {:induction false} DecideElems(sc: Schema, T: Tables, a: Addr, x: Value, k: nat, sz: nat, m: Mode)
    requires Slot(sc, T, a) && TypeOf(sc, a).Array? && Tracked(sc, m) && x.Vec? && k <= |x.elems|
    requires CellAt(T, a).Many? && |ItemsAt(T, a)| == Longer(k, sz) && (k < sz ==> m.diff)
    requires Owner(sc, T, a) !! KeysElems(sc, TypeOf(sc, a).elem, x, k) && DistinctElems(sc, TypeOf(sc, a).elem, x, k)
    ensures var e := TypeOf(sc, a).elem;
            Decides(AcceptsElems(sc, T, e, x, m.tryUpdate, false, k), AcceptsElems(sc, T, e, x, m.tryUpdate, true, k),
                    AssignFrom(sc, T, a, e, x, k, sz, m))
    decreases x, 0, |x.elems| - k
  {
    hide Frame, RowOk, ItemOk, SetIfDifferent, Add, AcceptsItem;
    if k < |x.elems| {
      var e, y, own := TypeOf(sc, a).elem, x.elems[k], Owner(sc, T, a);
      var o := if k < sz then SetIfDifferent(sc, T, a, e, y, k, m) else Add(sc, T, a, e, y, m);
      var K := own + KeysItem(sc, e, y);
      DecideStep(sc, T, a, y, k, sz, m);
      GrowsRefl(T);
      if k < sz {
        SetIfDifferentFrame(sc, T, a, y, k, m);
        SetNames(sc, T, T, a, y, k, m);
      } else {
        AddFrame(sc, T, a, y, m);
        AddNames(sc, T, T, a, y, m);
      }
      if o.res.Ok? {
        SlotStays(sc, T, o.tables, a, K);
        DecideElems(sc, o.tables, a, x, k + 1, sz, m);
        KeptElems(sc, T, o.tables, e, x, m.tryUpdate, false, k + 1, K);
        KeptElems(sc, T, o.tables, e, x, m.tryUpdate, true, k + 1, K);
      }
    }
  }

  lemma {:induction false} DecideStep(sc: Schema, T: Tables, a: Addr, y: Value, k: nat, sz: nat, m: Mode)
    requires Slot(sc, T, a) && TypeOf(sc, a).Array? && Tracked(sc, m)
    requires CellAt(T, a).Many? && |ItemsAt(T, a)| == Longer(k, sz) && (k < sz ==> m.diff)
    requires Owner(sc, T, a) !! KeysItem(sc, TypeOf(sc, a).elem, y) && DistinctItem(sc, TypeOf(sc, a).elem, y)
    ensures var e := TypeOf(sc, a).elem;
            Decides(AcceptsItem(sc, T, e, y, m.tryUpdate, true, false), AcceptsItem(sc, T, e, y, m.tryUpdate, true, true),
                    if k < sz then SetIfDifferent(sc, T, a, e, y, k, m) else Add(sc, T, a, e, y, m))
    decreases y, 4, 0
  {
    hide Frame, RowOk, Resolve, AcceptsItem;
    var e, items := TypeOf(sc, a).elem, ItemsAt(T, a);
    if k < sz {
      var cur := if items[k].Ref? then Some(items[k].row) else None;
      ResolveStays(sc, T, a, e, y, m.(diff := true), cur, true);
      DecideItem(sc, T, e, y, m.(diff := true), cur, true);
    } else {
      DecideItem(sc, T, e, y, m.(diff := false), None, true);
    }
  }

  // ---------- trees without managed rows and lists ----------

  // v is made of scalars, dictionaries and vectors only.
  predicate Unmanaged(v: Value) {
    match v
    case Dict(fields) => forall name :: name in fields ==> Unmanaged(fields[name])
    case Vec(elems) => forall i :: 0 <= i < |elems| ==> Unmanaged(elems[i])
    case RowBox(_, _) => false
    case ListBox(_) => false
    case _ => true
  }

  lemma {:induction false} LooseObj(sc: Schema, T: Tables, t: nat, v: Value, upsert: bool)
    requires ValidSchema(sc) && t < |sc| && Unmanaged(v) && AcceptsObj(sc, T, t, v, upsert, true)
    ensures AcceptsObj(sc, T, t, v, upsert, false)
    decreases v, 2, 0
  {
    assert ValidType(sc, sc[t]);
    LooseFrom(sc, T, t, v, upsert, sc[t].primary.None? || !Taken(sc, T, t, GivenKey(sc[t], v)), 0);
  }

  lemma {:induction false} LooseFrom(sc: Schema, T: Tables, t: nat, v: Value, upsert: bool, created: bool, i: nat)
    requires ValidSchema(sc) && t < |sc| && i <= |sc[t].props| && Unmanaged(v)
    requires AcceptsFrom(sc, T, t, v, upsert, true, created, i)
    ensures AcceptsFrom(sc, T, t, v, upsert, false, created, i)
    decreases v, 1, |sc[t].props| - i
  {
    if i < |sc[t].props| {
      var p := sc[t].props[i];
      assert ValidType(sc, sc[t]) && ValidProp(sc, p.typ);
      LooseFrom(sc, T, t, v, upsert, created, i + 1);
      if sc[t].primary != Some(i) && Supplied(v, p.name) {
        LooseVal(sc, T, p.typ, v.fields[p.name], upsert);
      }
    }
  }

  lemma {:induction false} LooseVal(sc: Schema, T: Tables, p: PropType, x: Value, upsert: bool)
    requires ValidSchema(sc) && ValidProp(sc, p) && Unmanaged(x) && AcceptsVal(sc, T, p, x, upsert, true)
    ensures AcceptsVal(sc, T, p, x, upsert, false)
    decreases x, 4, 0
  {
    if p.Array? {
      if x.Vec? {
        LooseElems(sc, T, p.elem, x, upsert, 0);
      }
    } else if p.elem.Object? && !x.Null? {
      LooseObj(sc, T, p.elem.target, x, upsert);
    }
  }

  lemma {:induction false} LooseElems(sc: Schema, T: Tables, e: Elem, x: Value, upsert: bool, k: nat)
    requires ValidSchema(sc) && (e.Object? ==> e.target < |sc|) && x.Vec? && k <= |x.elems| && Unmanaged(x)
    requires AcceptsElems(sc, T, e, x, upsert, true, k)
    ensures AcceptsElems(sc, T, e, x, upsert, false, k)
    decreases x, 0, |x.elems| - k
  {
    if k < |x.elems| {
      LooseElems(sc, T, e, x, upsert, k + 1);
      if e.Object? {
        LooseObj(sc, T, e.target, x.elems[k], upsert);
      }
    }
  }

  // A create succeeds if the tables accept the value, and for values without managed rows
  // and lists only if they do.
  lemma CreateSucceedsIff(sc: Schema, T: Tables, t: nat, v: Value, m: Mode, cur: Option<nat>)
    requires ValidSchema(sc) && Typed(sc, T) && t < |sc| && Tracked(sc, m) && DistinctOf(sc, t, v)
    ensures AcceptsObj(sc, T, t, v, m.tryUpdate, false) ==> Create(sc, T, t, v, m, cur).res.Ok?
    ensures Create(sc, T, t, v, m, cur).res.Ok? ==> AcceptsObj(sc, T, t, v, m.tryUpdate, true)
    ensures Unmanaged(v) ==> (Create(sc, T, t, v, m, cur).res.Ok? <==> AcceptsObj(sc, T, t, v, m.tryUpdate, false))
  {
    hide Create, AcceptsObj;
    DecideObj(sc, T, t, v, m, cur);
    if Unmanaged(v) && Create(sc, T, t, v, m, cur).res.Ok? {
      LooseObj(sc, T, t, v, m.tryUpdate);
    }
  }
}
