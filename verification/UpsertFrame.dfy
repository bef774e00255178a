/** Which rows a create may touch: those whose key occurs in the value tree. */
module UpsertFrame {
  import opened RealmModel
  import opened UpsertSpec
  import opened UpsertInvariant

  // What tells a row from the others: its key, or its place if its type has none.
  datatype Key = Key(t: nat, k: Cell) | Place(t: nat, r: nat)

  function IdOf(sc: Schema, T: Tables, t: nat, r: nat): Key {
    if t < |sc| && sc[t].primary.Some? then Key(t, KeyAt(sc, T, t, r)) else Place(t, r)
  }

  // The modes in which a create writes no old row but by its key: not a plain create in a
  // migration, and not diff mode, which reuses current rows, if some type has no key.
  predicate Tracked(sc: Schema, m: Mode) {
    Strict(m) && (Keyed(sc) || !m.diff)
  }

  // ---------- the keys of a value tree ----------

  function OwnKey(sc: Schema, t: nat, v: Value): (K: set<Key>)
    requires ValidSchema(sc) && t < |sc|
    ensures forall q :: q in K ==> q.Key?
  {
    assert ValidType(sc, sc[t]);
    if sc[t].primary.None? then {}
    else
      match KeyFor(sc[t], v)
      case Ok(k) => {Key(t, k)}
      case Err(_) => {}
  }

  // All keys in the tree v, read as an object of type t.
  function KeysOf(sc: Schema, t: nat, v: Value): (K: set<Key>)
    requires ValidSchema(sc) && t < |sc|
    ensures forall q :: q in K ==> q.Key?
    decreases v, 2, 0
  {
    OwnKey(sc, t, v) + KeysFrom(sc, t, v, 0)
  }

  // ... in the properties from i on
  function KeysFrom(sc: Schema, t: nat, v: Value, i: nat): (K: set<Key>)
    requires ValidSchema(sc) && t < |sc| && i <= |sc[t].props|
    ensures forall q :: q in K ==> q.Key?
    decreases v, 1, |sc[t].props| - i
  {
    if i == |sc[t].props| then {}
    else if sc[t].primary == Some(i) then KeysFrom(sc, t, v, i + 1)
    else
      assert ValidType(sc, sc[t]) && ValidProp(sc, sc[t].props[i].typ);
      match Lookup(v, sc[t].props[i].name)
      case Ok(Some(x)) => KeysVal(sc, sc[t].props[i].typ, x) + KeysFrom(sc, t, v, i + 1)
      case Ok(None) => KeysFrom(sc, t, v, i + 1)
      case Err(_) => {}
  }

  function KeysVal(sc: Schema, p: PropType, x: Value): (K: set<Key>)
    requires ValidSchema(sc) && ValidProp(sc, p)
    ensures forall q :: q in K ==> q.Key?
    decreases x, 4, 0
  {
    match p
    case Single(e, _) => if x.Null? then {} else KeysItem(sc, e, x)
    case Array(e) => if x.Vec? then KeysElems(sc, e, x, 0) else {}
  }

  function KeysItem(sc: Schema, e: Elem, x: Value): (K: set<Key>)
    requires ValidSchema(sc) && (e.Object? ==> e.target < |sc|)
    ensures forall q :: q in K ==> q.Key?
    decreases x, 3, 0
  {
    if e.Object? && !x.RowBox? then KeysOf(sc, e.target, x) else {}
  }

  function KeysElems(sc: Schema, e: Elem, x: Value, k: nat): (K: set<Key>)
    requires ValidSchema(sc) && (e.Object? ==> e.target < |sc|) && x.Vec? && k <= |x.elems|
    ensures forall q :: q in K ==> q.Key?
    decreases x, 0, |x.elems| - k
  {
    if k == |x.elems| then {} else KeysItem(sc, e, x.elems[k]) + KeysElems(sc, e, x, k + 1)
  }

  // ---------- frames ----------

  // From T to U no row is lost, keys stay, only rows that K names are written, and every
  // new row of a type with a key has one in K.
  predicate Frame(sc: Schema, T: Tables, U: Tables, K: set<Key>) {
    && Grows(T, U)
    && KeepsKeys(sc, T, U)
    && (forall t, r :: 0 <= t < |T| && 0 <= r < |T[t]| && IdOf(sc, T, t, r) !in K ==> U[t][r] == T[t][r])
    && (forall t, r :: 0 <= t < |T| && t < |sc| && sc[t].primary.Some? && |T[t]| <= r < |U[t]| ==>
          Key(t, KeyAt(sc, U, t, r)) in K)
  }

  // Every key in K belongs to some row.
  predicate Covers(sc: Schema, T: Tables, K: set<Key>) {
    forall q :: q in K && q.Key? ==> FindFirst(sc, T, q.t, q.k).Some?
  }

  lemma FrameTrans(sc: Schema, T: Tables, U: Tables, V: Tables, K: set<Key>, L: set<Key>)
    requires Frame(sc, T, U, K) && Frame(sc, U, V, L)
    ensures Frame(sc, T, V, K + L)
  {
    forall t, r | 0 <= t < |T| && 0 <= r < |T[t]| ensures KeyAt(sc, V, t, r) == KeyAt(sc, T, t, r) {
      assert KeyAt(sc, U, t, r) == KeyAt(sc, T, t, r);
    }
    forall t, r | 0 <= t < |T| && t < |sc| && sc[t].primary.Some? && |T[t]| <= r < |V[t]|
      ensures Key(t, KeyAt(sc, V, t, r)) in K + L
    {
      if r < |U[t]| {
        assert KeyAt(sc, V, t, r) == KeyAt(sc, U, t, r);
      }
    }
  }

  lemma FrameMono(sc: Schema, T: Tables, U: Tables, K: set<Key>, L: set<Key>)
    requires Frame(sc, T, U, K) && K <= L
    ensures Frame(sc, T, U, L)
  {
    forall t, r | 0 <= t < |T| && t < |sc| && sc[t].primary.Some? && |T[t]| <= r < |U[t]|
      ensures Key(t, KeyAt(sc, U, t, r)) in L
    {
      assert Key(t, KeyAt(sc, U, t, r)) in K;
    }
  }

  lemma FrameRefl(sc: Schema, T: Tables, K: set<Key>)
    ensures Frame(sc, T, T, K)
  {
  }

  // The first row with a key stays the first; a key not in K does not appear.
  lemma FindStable(sc: Schema, T: Tables, U: Tables, t: nat, k: Cell, K: set<Key>)
    requires Frame(sc, T, U, K)
    ensures FindFirst(sc, T, t, k).Some? ==> FindFirst(sc, U, t, k) == FindFirst(sc, T, t, k)
    ensures t < |sc| && sc[t].primary.Some? && Key(t, k) !in K ==> FindFirst(sc, U, t, k) == FindFirst(sc, T, t, k)
  {
    if t < |T| {
      var f := FindFirst(sc, T, t, k);
      var g := FindFirst(sc, U, t, k);
      assert forall r :: 0 <= r < |T[t]| ==> KeyAt(sc, U, t, r) == KeyAt(sc, T, t, r);
      if f.Some? {
        assert KeyAt(sc, U, t, f.value) == k;
      } else if g.Some? {
        assert KeyAt(sc, U, t, g.value) == k;
      }
    }
  }

  lemma CoversStable(sc: Schema, T: Tables, U: Tables, K: set<Key>, L: set<Key>)
    requires Frame(sc, T, U, K) && Covers(sc, T, L)
    ensures Covers(sc, U, L)
  {
    forall q | q in L && q.Key? ensures FindFirst(sc, U, q.t, q.k).Some? {
      FindStable(sc, T, U, q.t, q.k, K);
    }
  }

  // Writing a cell of a row whose key is in K, outside the key column.
  lemma PutFrame(sc: Schema, T: Tables, a: Addr, x: Cell, K: set<Key>)
    requires Has(T, a) && a.t < |sc| && sc[a.t].primary != Some(a.c)
    requires IdOf(sc, T, a.t, a.r) in K
    ensures Frame(sc, T, Put(T, a, x), K)
  {
    var U := Put(T, a, x);
    forall t, r | 0 <= t < |T| && 0 <= r < |T[t]| ensures KeyAt(sc, U, t, r) == KeyAt(sc, T, t, r) {
    }
  }

  // A cell that a property setter may write: a property of a row, outside the key column.
  predicate Slot(sc: Schema, T: Tables, a: Addr) {
    && ValidSchema(sc) && Typed(sc, T)
    && Has(T, a) && a.c < |sc[a.t].props| && sc[a.t].primary != Some(a.c)
    && ValidProp(sc, sc[a.t].props[a.c].typ)
  }

  function TypeOf(sc: Schema, a: Addr): PropType
    requires a.t < |sc| && a.c < |sc[a.t].props|
  {
    sc[a.t].props[a.c].typ
  }

  // The row that a belongs to.
  function Owner(sc: Schema, T: Tables, a: Addr): set<Key> {
    {IdOf(sc, T, a.t, a.r)}
  }

  lemma SlotStays(sc: Schema, T: Tables, U: Tables, a: Addr, K: set<Key>)
    requires Slot(sc, T, a) && Typed(sc, U) && Frame(sc, T, U, K)
    ensures Slot(sc, U, a) && Owner(sc, U, a) == Owner(sc, T, a) && CellOk(U, TypeOf(sc, a), CellAt(U, a))
    ensures Grows(T, U)
  {
    StillHas(sc, T, U, a);
  }

  // ---------- Object::create stays within the keys of its tree, and finds or makes them all ----------

  predicate Framed<R>(sc: Schema, T: Tables, o: Out<R>, K: set<Key>, own: set<Key>) {
    Typed(sc, o.tables) && Frame(sc, T, o.tables, own + K) && (o.res.Ok? ==> Covers(sc, o.tables, K))
  }

  // Two framed calls in a row, the first of which succeeded.
  lemma FramedTrans<R, S>(sc: Schema, T: Tables, o: Out<R>, q: Out<S>, K: set<Key>, L: set<Key>, own: set<Key>)
    requires Framed(sc, T, o, K, own) && Framed(sc, o.tables, q, L, own) && o.res.Ok?
    ensures Framed(sc, T, q, K + L, own)
  {
    FrameTrans(sc, T, o.tables, q.tables, own + K, own + L);
    assert (own + K) + (own + L) == own + (K + L);
    CoversStable(sc, o.tables, q.tables, own + L, K);
  }

  // What Object::create does before it populates, when it updates: the row that has the
  // key, or else a new one.
  function Entered(sc: Schema, T: Tables, t: nat, k: Cell): (Tables, nat)
    requires t < |sc| && sc[t].primary.Some?
  {
    match FindFirst(sc, T, t, k)
    case Some(r) => (T, r)
    case None => (Put(AddRow(sc, T, t), Addr(t, Size(T, t), sc[t].primary.value), k), Size(T, t))
  }

  lemma EnteredFrame(sc: Schema, T: Tables, t: nat, v: Value)
    requires ValidSchema(sc) && Typed(sc, T) && t < |sc|
    requires sc[t].primary.Some? && ValidType(sc, sc[t]) && KeyFor(sc[t], v).Ok?
    ensures var k := KeyFor(sc[t], v).value;
            var (U, r) := Entered(sc, T, t, k);
            && Typed(sc, U) && Frame(sc, T, U, {Key(t, k)})
            && r < Size(U, t) && KeyAt(sc, U, t, r) == k && FindFirst(sc, U, t, k) == Some(r)
  {
    KeyCellOk(sc, T, t, v);
    if FindFirst(sc, T, t, KeyFor(sc[t], v).value).None? {
      NewKeyedRow(sc, T, t, KeyFor(sc[t], v).value);
    }
  }

  // The row that a successful create of v returns: the first with its key, or a new one.
  predicate MadeFor(sc: Schema, T: Tables, U: Tables, t: nat, v: Value, r: nat)
    requires ValidSchema(sc) && t < |sc|
  {
    assert ValidType(sc, sc[t]);
    if sc[t].primary.Some? then KeyFor(sc[t], v).Ok? && FindFirst(sc, U, t, KeyFor(sc[t], v).value) == Some(r)
    else Size(T, t) <= r < Size(U, t)
  }

  lemma AddRowFrame(sc: Schema, T: Tables, t: nat)
    requires ValidSchema(sc) && Typed(sc, T) && t < |sc| && sc[t].primary.None?
    ensures Typed(sc, AddRow(sc, T, t)) && Frame(sc, T, AddRow(sc, T, t), {})
  {
    AddRowTyped(sc, T, t);
  }

  // A row that is new anyway need not be named.
  lemma FrameForget(sc: Schema, T: Tables, U: Tables, t: nat, n: nat, K: set<Key>)
    requires Frame(sc, T, U, {Place(t, n)} + K) && n >= Size(T, t)
    ensures Frame(sc, T, U, K)
  {
  }

  lemma {:induction false} CreateFrame(sc: Schema, T: Tables, t: nat, v: Value, m: Mode, cur: Option<nat>)
    requires ValidSchema(sc) && Typed(sc, T) && t < |sc| && Tracked(sc, m)
    ensures var o := Create(sc, T, t, v, m, cur);
            && Framed(sc, T, o, KeysOf(sc, t, v), {})
            && ValidType(sc, sc[t])
            && (o.res.Ok? ==> MadeFor(sc, T, o.tables, t, v, o.res.value))
    decreases v, 2, 0
  {
    var ot := sc[t];
    assert ValidType(sc, ot);
    if ot.primary.None? {
      var n, N := Size(T, t), AddRow(sc, T, t);
      var L := KeysFrom(sc, t, v, 0);
      AddRowFrame(sc, T, t);
      PopulateFrame(sc, N, t, n, v, m, true, 0);
      PopulateSafe(sc, N, t, n, v, m, true, 0);
      var o := Populate(sc, N, t, n, v, m, true, true, 0);
      FrameTrans(sc, T, N, o.tables, {}, {Place(t, n)} + L);
      assert {} + ({Place(t, n)} + L) == {Place(t, n)} + L && {} + KeysOf(sc, t, v) == L;
      FrameForget(sc, T, o.tables, t, n, L);
    } else if KeyFor(ot, v).Ok? {
      var k := KeyFor(ot, v).value;
      var own, L := {Key(t, k)}, KeysFrom(sc, t, v, 0);
      var (U, r) := Entered(sc, T, t, k);
      EnteredFrame(sc, T, t, v);
      var created := FindFirst(sc, T, t, k).None?;
      PopulateFrame(sc, U, t, r, v, m, created, 0);
      PopulateSafe(sc, U, t, r, v, m, created, 0);
      var o := Populate(sc, U, t, r, v, m, created, true, 0);
      FrameTrans(sc, T, U, o.tables, own, own + L);
      assert own + (own + L) == {} + KeysOf(sc, t, v);
      FindStable(sc, U, o.tables, t, k, own + L);
    }
  }

  lemma {:induction false} PopulateFrame(sc: Schema, T: Tables, t: nat, r: nat, v: Value, m: Mode, created: bool, i: nat)
    requires ValidSchema(sc) && Typed(sc, T) && t < |sc| && Tracked(sc, m)
    requires r < Size(T, t) && i <= |sc[t].props|
    ensures Framed(sc, T, Populate(sc, T, t, r, v, m, created, true, i), KeysFrom(sc, t, v, i), Owner(sc, T, Addr(t, r, i)))
    decreases v, 1, |sc[t].props| - i
  {
    hide Frame, UniqueKeys;
    FrameRefl(sc, T, Owner(sc, T, Addr(t, r, i)) + KeysFrom(sc, t, v, i));
    if i < |sc[t].props| {
      var p := sc[t].props[i];
      assert ValidType(sc, sc[t]) && ValidProp(sc, p.typ);
      if sc[t].primary == Some(i) || Lookup(v, p.name) == Ok(None) {
        PopulateFrame(sc, T, t, r, v, m, created, i + 1);
      } else if Lookup(v, p.name).Ok? {
        var x := Lookup(v, p.name).value.value;
        if !(x.Null? && Required(p.typ)) {
          var a := Addr(t, r, i);
          assert RowOk(T, sc[t], T[t][r]);
          var o := SetProp(sc, T, a, p.typ, x, m);
          SetPropFrame(sc, T, a, x, m);
          if o.res.Err? {
            FrameMono(sc, T, o.tables, Owner(sc, T, a) + KeysVal(sc, p.typ, x), Owner(sc, T, a) + KeysFrom(sc, t, v, i));
          } else {
            SlotStays(sc, T, o.tables, a, Owner(sc, T, a) + KeysVal(sc, p.typ, x));
            PopulateFrame(sc, o.tables, t, r, v, m, created, i + 1);
            var q := Populate(sc, o.tables, t, r, v, m, created, true, i + 1);
            FramedTrans(sc, T, o, q, KeysVal(sc, p.typ, x), KeysFrom(sc, t, v, i + 1), Owner(sc, T, a));
          }
        }
      }
    }
  }

  lemma {:induction false} SetPropFrame(sc: Schema, T: Tables, a: Addr, x: Value, m: Mode)
    requires Slot(sc, T, a) && Tracked(sc, m)
    ensures var p := TypeOf(sc, a);
            Framed(sc, T, SetProp(sc, T, a, p, x, m), KeysVal(sc, p, x), Owner(sc, T, a))
    decreases x, 5, 0
  {
    hide Frame, RowOk, UniqueKeys;
    var p := TypeOf(sc, a);
    SetPropSafe(sc, T, a, x, m);
    FrameRefl(sc, T, Owner(sc, T, a) + KeysVal(sc, p, x));
    if p.Array? {
      AssignFrame(sc, T, a, x, m);
    } else if p.nullable && x.Null? {
      PutFrame(sc, T, a, Empty, Owner(sc, T, a));
      FrameMono(sc, T, Put(T, a, Empty), Owner(sc, T, a), Owner(sc, T, a) + KeysVal(sc, p, x));
    } else {
      var o := Resolve(sc, T, p.elem, x, m, LinkAt(T, a), false);
      ResolveFrame(sc, T, p.elem, x, m, LinkAt(T, a), false);
      FrameMono(sc, T, o.tables, KeysItem(sc, p.elem, x), Owner(sc, T, a) + KeysItem(sc, p.elem, x));
      if o.res.Ok? {
        SlotFrame(sc, T, o.tables, a, One(o.res.value), KeysItem(sc, p.elem, x));
      }
    }
  }

  // A nested call followed by one write to the row that is being populated.
  lemma SlotFrame(sc: Schema, T: Tables, U: Tables, a: Addr, x: Cell, K: set<Key>)
    requires Slot(sc, T, a) && Typed(sc, U) && Frame(sc, T, U, K) && Covers(sc, U, K)
    ensures Frame(sc, T, Put(U, a, x), Owner(sc, T, a) + K) && Covers(sc, Put(U, a, x), K)
    ensures Frame(sc, T, U, Owner(sc, T, a) + K)
  {
    var own := Owner(sc, T, a);
    SlotStays(sc, T, U, a, K);
    PutFrame(sc, U, a, x, own);
    FrameTrans(sc, T, U, Put(U, a, x), K, own);
    assert K + own == own + K;
    CoversStable(sc, U, Put(U, a, x), own, K);
  }

  lemma {:induction false} ResolveFrame(sc: Schema, T: Tables, e: Elem, x: Value, m: Mode, cur: Option<nat>, inList: bool)
    requires ValidSchema(sc) && Typed(sc, T) && (e.Object? ==> e.target < |sc|) && Tracked(sc, m)
    ensures Framed(sc, T, Resolve(sc, T, e, x, m, cur, inList), KeysItem(sc, e, x), {})
    ensures Frame(sc, T, Resolve(sc, T, e, x, m, cur, inList).tables, KeysItem(sc, e, x))
    decreases x, 3, 0
  {
    if e.Object? && !x.RowBox? {
      CreateFrame(sc, T, e.target, x, m, cur);
    }
    assert {} + KeysItem(sc, e, x) == KeysItem(sc, e, x);
  }

  // A nested call does not touch the row that is being populated.
  lemma ResolveStays(sc: Schema, T: Tables, a: Addr, e: Elem, x: Value, m: Mode, cur: Option<nat>, inList: bool)
    requires Slot(sc, T, a) && Tracked(sc, m) && (e.Object? ==> e.target < |sc|)
    requires Owner(sc, T, a) !! KeysItem(sc, e, x)
    ensures var o := Resolve(sc, T, e, x, m, cur, inList);
            && Slot(sc, o.tables, a) && Owner(sc, o.tables, a) == Owner(sc, T, a)
            && o.tables[a.t][a.r] == T[a.t][a.r]
  {
    var o := Resolve(sc, T, e, x, m, cur, inList);
    ResolveFrame(sc, T, e, x, m, cur, inList);
    SlotStays(sc, T, o.tables, a, KeysItem(sc, e, x));
  }

  lemma {:induction false} AssignFrame(sc: Schema, T: Tables, a: Addr, x: Value, m: Mode)
    requires Slot(sc, T, a) && TypeOf(sc, a).Array? && Tracked(sc, m)
    ensures var p := TypeOf(sc, a);
            Framed(sc, T, Assign(sc, T, a, p.elem, x, m), KeysVal(sc, p, x), Owner(sc, T, a))
    decreases x, 4, 0
  {
    hide Frame, RowOk, UniqueKeys;
    var e := TypeOf(sc, a).elem;
    var n := |ItemsAt(T, a)|;
    var own := Owner(sc, T, a);
    var U := Put(T, a, Many([]));
    var none: set<Key> := {};
    FrameRefl(sc, T, own + KeysVal(sc, TypeOf(sc, a), x));
    assert own + none == own;
    AssignSafe(sc, T, a, x, m);
    PutSafe(sc, T, a, Many([]), true);
    PutFrame(sc, T, a, Many([]), own);
    if x.Vec? {
      var K := KeysElems(sc, e, x, 0);
      if m.diff {
        var o := AssignFrom(sc, T, a, e, x, 0, n, m);
        AssignFromFrame(sc, T, a, x, 0, n, m);
        if o.res.Ok? {
          var q := RemoveTail(o.tables, a, |x.elems|, n);
          SlotStays(sc, T, o.tables, a, own + K);
          RemoveTailSafe(sc, o.tables, a, |x.elems|, n, true);
          RemoveTailFrame(sc, o.tables, a, |x.elems|, n, own);
          assert K + none == K;
          FramedTrans(sc, T, o, q, K, none, own);
        }
      } else {
        SlotStays(sc, T, U, a, own);
        AssignFromFrame(sc, U, a, x, 0, 0, m);
        FrameTrans(sc, T, U, AssignFrom(sc, U, a, e, x, 0, 0, m).tables, own, own + K);
        assert own + (own + K) == own + K;
      }
    } else {
      FrameMono(sc, T, U, own, own + KeysVal(sc, TypeOf(sc, a), x));
    }
  }

  lemma {:induction false} AssignFromFrame(sc: Schema, T: Tables, a: Addr, x: Value, k: nat, sz: nat, m: Mode)
    requires Slot(sc, T, a) && TypeOf(sc, a).Array? && Tracked(sc, m) && x.Vec? && k <= |x.elems|
    requires k < sz ==> m.diff
    ensures var e := TypeOf(sc, a).elem;
            Framed(sc, T, AssignFrom(sc, T, a, e, x, k, sz, m), KeysElems(sc, e, x, k), Owner(sc, T, a))
    decreases x, 0, |x.elems| - k
  {
    hide ItemOk, SetIfDifferent, Add, KeyAt;
    var e := TypeOf(sc, a).elem;
    if k < |x.elems| {
      var y := x.elems[k];
      var K, L := KeysItem(sc, e, y), KeysElems(sc, e, x, k + 1);
      var o := if k < sz then SetIfDifferent(sc, T, a, e, y, k, m) else Add(sc, T, a, e, y, m);
      if k < sz {
        SetIfDifferentFrame(sc, T, a, y, k, m);
      } else {
        AddFrame(sc, T, a, y, m);
      }
      if o.res.Ok? {
        SlotStays(sc, T, o.tables, a, Owner(sc, T, a) + K);
        AssignFromFrame(sc, o.tables, a, x, k + 1, sz, m);
        FramedTrans(sc, T, o, AssignFrom(sc, o.tables, a, e, x, k + 1, sz, m), K, L, Owner(sc, T, a));
      }
    }
  }

  lemma {:induction false} SetIfDifferentFrame(sc: Schema, T: Tables, a: Addr, y: Value, k: nat, m: Mode)
    requires Slot(sc, T, a) && TypeOf(sc, a).Array? && Strict(m) && Keyed(sc)
    ensures var e := TypeOf(sc, a).elem;
            Framed(sc, T, SetIfDifferent(sc, T, a, e, y, k, m), KeysItem(sc, e, y), Owner(sc, T, a))
    decreases y, 4, 0
  {
    hide Frame, Covers, RowOk, UniqueKeys;
    var e := TypeOf(sc, a).elem;
    SetIfDifferentSafe(sc, T, a, y, k, m);
    FrameRefl(sc, T, Owner(sc, T, a) + KeysItem(sc, e, y));
    var items := ItemsAt(T, a);
    if k < |items| {
      var cur := if items[k].Ref? then Some(items[k].row) else None;
      var o := Resolve(sc, T, e, y, m.(diff := true), cur, true);
      ResolveFrame(sc, T, e, y, m.(diff := true), cur, true);
      FrameMono(sc, T, o.tables, KeysItem(sc, e, y), Owner(sc, T, a) + KeysItem(sc, e, y));
      if o.res.Ok? {
        var now := ItemsAt(o.tables, a);
        SlotFrame(sc, T, o.tables, a, if k < |now| then Many(now[k := o.res.value]) else Empty, KeysItem(sc, e, y));
      }
    }
  }

  lemma {:induction false} AddFrame(sc: Schema, T: Tables, a: Addr, y: Value, m: Mode)
    requires Slot(sc, T, a) && TypeOf(sc, a).Array? && Tracked(sc, m)
    ensures var e := TypeOf(sc, a).elem;
            Framed(sc, T, Add(sc, T, a, e, y, m), KeysItem(sc, e, y), Owner(sc, T, a))
    decreases y, 4, 0
  {
    var e := TypeOf(sc, a).elem;
    AddSafe(sc, T, a, y, m);
    var o := Resolve(sc, T, e, y, m.(diff := false), None, true);
    ResolveFrame(sc, T, e, y, m.(diff := false), None, true);
    if o.res.Ok? {
      SlotFrame(sc, T, o.tables, a, Many(ItemsAt(o.tables, a) + [o.res.value]), KeysItem(sc, e, y));
    }
  }

  lemma {:induction false} RemoveTailFrame(sc: Schema, T: Tables, a: Addr, index: nat, sz: nat, K: set<Key>)
    requires Has(T, a) && a.t < |sc| && sc[a.t].primary != Some(a.c)
    requires IdOf(sc, T, a.t, a.r) in K
    ensures Frame(sc, T, RemoveTail(T, a, index, sz).tables, K)
    decreases sz
  {
    var items := ItemsAt(T, a);
    if index < sz && sz - 1 < |items| {
      var x := Many(items[..sz - 1] + items[sz..]);
      PutFrame(sc, T, a, x, K);
      RemoveTailFrame(sc, Put(T, a, x), a, index, sz - 1, K);
      FrameTrans(sc, T, Put(T, a, x), RemoveTail(T, a, index, sz).tables, K, K);
      assert K + K == K;
    }
  }
}
