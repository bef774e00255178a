/** List::assign on any list: the final list is the input, entry by entry, also when the
    input names one object several times. */
module UpsertLists {
  import opened RealmModel
  import opened UpsertSpec
  import opened UpsertInvariant
  import opened UpsertFrame
  import opened UpsertReadBack

  // The list entry that y stands for: the scalar, the managed row, the first row with the
  // key of y, or for a type without a key a row that was not there in the tables B.
  predicate Names(sc: Schema, T: Tables, B: Tables, e: Elem, y: Value, it: Item)
    requires ValidSchema(sc) && (e.Object? ==> e.target < |sc|)
  {
    match e
    case Basic(k) => Unbox(k, y).Ok? && it == DataItem(Unbox(k, y).value)
    case Object(target) =>
      if y.RowBox? then it == Ref(y.row) && y.table == target && y.row < Size(T, target)
      else it.Ref? && MadeFor(sc, B, T, target, y, it.row)
  }

  predicate AllNamed(sc: Schema, T: Tables, B: Tables, e: Elem, x: Value, items: seq<Item>, from: nat)
    requires ValidSchema(sc) && (e.Object? ==> e.target < |sc|) && x.Vec? && |x.elems| <= |items|
  {
    forall j :: from <= j < |x.elems| ==> Names(sc, T, B, e, x.elems[j], items[j])
  }

  lemma NoneNamed(sc: Schema, T: Tables, B: Tables, e: Elem, x: Value, items: seq<Item>)
    requires ValidSchema(sc) && (e.Object? ==> e.target < |sc|) && x.Vec? && |x.elems| <= |items|
    ensures AllNamed(sc, T, B, e, x, items, |x.elems|)
  {
  }

  lemma NamesStable(sc: Schema, T: Tables, U: Tables, B: Tables, e: Elem, y: Value, it: Item, K: set<Key>)
    requires ValidSchema(sc) && (e.Object? ==> e.target < |sc|) && |T| == |sc| && Frame(sc, T, U, K)
    requires Names(sc, T, B, e, y, it)
    ensures Names(sc, U, B, e, y, it)
  {
    if e.Object? && !y.RowBox? && sc[e.target].primary.Some? {
      assert ValidType(sc, sc[e.target]);
      FindStable(sc, T, U, e.target, KeyFor(sc[e.target], y).value, K);
    }
  }

  lemma AllStable(sc: Schema, T: Tables, U: Tables, B: Tables, e: Elem, x: Value, items: seq<Item>, from: nat, K: set<Key>)
    requires ValidSchema(sc) && (e.Object? ==> e.target < |sc|) && |T| == |sc| && Frame(sc, T, U, K)
    requires x.Vec? && |x.elems| <= |items| && AllNamed(sc, T, B, e, x, items, from)
    ensures AllNamed(sc, U, B, e, x, items, from)
  {
    hide Frame, Names;
    forall j | from <= j < |x.elems| ensures Names(sc, U, B, e, x.elems[j], items[j]) {
      NamesStable(sc, T, U, B, e, x.elems[j], items[j], K);
    }
  }

  // What resolving one element gives.
  lemma ResolveNames(sc: Schema, T: Tables, B: Tables, e: Elem, y: Value, m: Mode, cur: Option<nat>)
    requires ValidSchema(sc) && Typed(sc, T) && (e.Object? ==> e.target < |sc|) && Tracked(sc, m) && Grows(B, T)
    ensures var o := Resolve(sc, T, e, y, m, cur, true);
            o.res.Ok? ==> Names(sc, o.tables, B, e, y, o.res.value)
  {
    hide Frame, Typed, Create;
    if e.Object? && !y.RowBox? {
      CreateFrame(sc, T, e.target, y, m, cur);
    }
  }

  lemma SetNames(sc: Schema, T: Tables, B: Tables, a: Addr, y: Value, k: nat, m: Mode)
    requires Slot(sc, T, a) && TypeOf(sc, a).Array? && Keyed(sc) && Strict(m) && Grows(B, T)
    requires CellAt(T, a).Many? && k < |ItemsAt(T, a)|
    requires Owner(sc, T, a) !! KeysItem(sc, TypeOf(sc, a).elem, y)
    ensures var e := TypeOf(sc, a).elem;
            var o := SetIfDifferent(sc, T, a, e, y, k, m);
            var items := ItemsAt(o.tables, a);
            o.res.Ok? ==>
              && OnlyCell(T, o.tables, a) && CellAt(o.tables, a).Many?
              && |items| == |ItemsAt(T, a)| && items[..k] == ItemsAt(T, a)[..k]
              && Names(sc, o.tables, B, e, y, items[k])
  {
    hide Frame, RowOk, Resolve, Names, KeepsKeys;
    var e, items := TypeOf(sc, a).elem, ItemsAt(T, a);
    var cur := if items[k].Ref? then Some(items[k].row) else None;
    var o := Resolve(sc, T, e, y, m.(diff := true), cur, true);
    ResolveStays(sc, T, a, e, y, m.(diff := true), cur, true);
    ResolveNames(sc, T, B, e, y, m.(diff := true), cur);
    if o.res.Ok? {
      var x := Many(items[k := o.res.value]);
      PutFrame(sc, o.tables, a, x, Owner(sc, T, a));
      NamesStable(sc, o.tables, Put(o.tables, a, x), B, e, y, o.res.value, Owner(sc, T, a));
    }
  }

  lemma AddNames(sc: Schema, T: Tables, B: Tables, a: Addr, y: Value, m: Mode)
    requires Slot(sc, T, a) && TypeOf(sc, a).Array? && Tracked(sc, m) && Grows(B, T) && CellAt(T, a).Many?
    requires Owner(sc, T, a) !! KeysItem(sc, TypeOf(sc, a).elem, y)
    ensures var e := TypeOf(sc, a).elem;
            var o := Add(sc, T, a, e, y, m);
            var n := |ItemsAt(T, a)|;
            var items := ItemsAt(o.tables, a);
            o.res.Ok? ==>
              && OnlyCell(T, o.tables, a) && CellAt(o.tables, a).Many?
              && |items| == n + 1 && items[..n] == ItemsAt(T, a)
              && Names(sc, o.tables, B, e, y, items[n])
  {
    hide Frame, RowOk, Resolve, Names, KeepsKeys;
    var e := TypeOf(sc, a).elem;
    var o := Resolve(sc, T, e, y, m.(diff := false), None, true);
    ResolveStays(sc, T, a, e, y, m.(diff := false), None, true);
    ResolveNames(sc, T, B, e, y, m.(diff := false), None);
    if o.res.Ok? {
      var x := Many(ItemsAt(T, a) + [o.res.value]);
      PutFrame(sc, o.tables, a, x, Owner(sc, T, a));
      NamesStable(sc, o.tables, Put(o.tables, a, x), B, e, y, o.res.value, Owner(sc, T, a));
    }
  }

  // Entry k has been written, from T to U, and the entries after it, from U to V.
  lemma EntryNames(sc: Schema, T: Tables, U: Tables, V: Tables, B: Tables, a: Addr, x: Value, k: nat, K: set<Key>)
    requires Slot(sc, U, a) && x.Vec? && k < |x.elems| <= |ItemsAt(V, a)| && k < |ItemsAt(U, a)| && k <= |ItemsAt(T, a)|
    requires Frame(sc, U, V, K)
    requires Names(sc, U, B, TypeOf(sc, a).elem, x.elems[k], ItemsAt(U, a)[k])
    requires AllNamed(sc, V, B, TypeOf(sc, a).elem, x, ItemsAt(V, a), k + 1)
    requires ItemsAt(V, a)[..k + 1] == ItemsAt(U, a)[..k + 1] && ItemsAt(U, a)[..k] == ItemsAt(T, a)[..k]
    ensures AllNamed(sc, V, B, TypeOf(sc, a).elem, x, ItemsAt(V, a), k) && ItemsAt(V, a)[..k] == ItemsAt(T, a)[..k]
  {
    hide Frame, Names, RowOk, CellAt;
    var items, late := ItemsAt(U, a), ItemsAt(V, a);
    assert late[k] == late[..k + 1][k] == items[k];
    assert late[..k] == late[..k + 1][..k] == items[..k + 1][..k] == items[..k];
    NamesStable(sc, U, V, B, TypeOf(sc, a).elem, x.elems[k], items[k], K);
  }

  lemma {:induction false} LoopNames(sc: Schema, T: Tables, B: Tables, a: Addr, x: Value, k: nat, sz: nat, m: Mode)
    requires Slot(sc, T, a) && TypeOf(sc, a).Array? && Tracked(sc, m) && Grows(B, T) && x.Vec? && k <= |x.elems|
    requires CellAt(T, a).Many? && |ItemsAt(T, a)| == Longer(k, sz) && (k < sz ==> m.diff)
    requires Owner(sc, T, a) !! KeysElems(sc, TypeOf(sc, a).elem, x, k)
    ensures var e := TypeOf(sc, a).elem;
            var o := AssignFrom(sc, T, a, e, x, k, sz, m);
            var items := ItemsAt(o.tables, a);
            o.res.Ok? ==>
              && OnlyCell(T, o.tables, a) && CellAt(o.tables, a).Many?
              && |items| == Longer(|x.elems|, sz) && items[..k] == ItemsAt(T, a)[..k]
              && AllNamed(sc, o.tables, B, e, x, items, k)
    decreases |x.elems| - k
  {
    hide Frame, RowOk, ItemOk, CellOk, SetIfDifferent, Add, Names, AllNamed;
    var e := TypeOf(sc, a).elem;
    if k == |x.elems| {
      NoneNamed(sc, T, B, e, x, ItemsAt(T, a));
    } else {
      var y, own := x.elems[k], Owner(sc, T, a);
      var o := if k < sz then SetIfDifferent(sc, T, a, e, y, k, m) else Add(sc, T, a, e, y, m);
      if k < sz {
        SetIfDifferentFrame(sc, T, a, y, k, m);
        SetNames(sc, T, B, a, y, k, m);
      } else {
        AddFrame(sc, T, a, y, m);
        AddNames(sc, T, B, a, y, m);
      }
      if o.res.Ok? {
        SlotStays(sc, T, o.tables, a, own + KeysItem(sc, e, y));
        LoopNames(sc, o.tables, B, a, x, k + 1, sz, m);
        AssignFromFrame(sc, o.tables, a, x, k + 1, sz, m);
        var q := AssignFrom(sc, o.tables, a, e, x, k + 1, sz, m);
        if q.res.Ok? {
          EntryNames(sc, T, o.tables, q.tables, B, a, x, k, own + KeysElems(sc, e, x, k + 1));
        }
      }
    }
  }

  // Whatever the list held, a successful assignment ends with the input and changes no
  // other cell of the row.  The input may name one object several times; only
  // the object that owns the list must not come back inside it.
  lemma AssignIsInput(sc: Schema, T: Tables, a: Addr, x: Value, m: Mode)
    requires Slot(sc, T, a) && TypeOf(sc, a).Array? && Tracked(sc, m)
    requires Owner(sc, T, a) !! KeysVal(sc, TypeOf(sc, a), x)
    ensures var e := TypeOf(sc, a).elem;
            var o := Assign(sc, T, a, e, x, m);
            var items := ItemsAt(o.tables, a);
            o.res.Ok? ==>
              && OnlyCell(T, o.tables, a) && CellAt(o.tables, a).Many?
              && (x == ListBox(a) || x.Null? || x.Vec?)
              && (x == ListBox(a) ==> o.tables == T)
              && (x.Null? ==> items == [])
              && (x.Vec? ==> |items| == |x.elems| && AllNamed(sc, o.tables, T, e, x, items, 0))
  {
    hide Frame, RowOk, AssignFrom, Names, RemoveTail;
    var e, n, own := TypeOf(sc, a).elem, |ItemsAt(T, a)|, Owner(sc, T, a);
    StillHas(sc, T, T, a) by { GrowsRefl(T); }
    if x != ListBox(a) && x.Vec? {
      if m.diff {
        var o := AssignFrom(sc, T, a, e, x, 0, n, m);
        LoopNames(sc, T, T, a, x, 0, n, m);
        if o.res.Ok? {
          var items := ItemsAt(o.tables, a);
          var U := Put(o.tables, a, Many(items[..|x.elems|]));
          RemoveTailIs(o.tables, a, |x.elems|, n);
          AssignFromFrame(sc, T, a, x, 0, n, m);
          SlotStays(sc, T, o.tables, a, own + KeysElems(sc, e, x, 0));
          PutFrame(sc, o.tables, a, Many(items[..|x.elems|]), own);
          AllStable(sc, o.tables, U, T, e, x, items, 0, own);
        }
      } else {
        var U := Put(T, a, Many([]));
        PutSafe(sc, T, a, Many([]), true);
        PutFrame(sc, T, a, Many([]), own);
        SlotStays(sc, T, U, a, own);
        LoopNames(sc, U, T, a, x, 0, 0, m);
      }
    }
  }
}
