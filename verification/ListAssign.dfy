/** List::assign on lists of scalars: what the list becomes, and the exact number of writes. */
module ListAssign {
  import opened RealmModel
  import opened UpsertSpec
  import opened UpsertReadBack

  predicate AllUnbox(k: Kind, x: Value, i: nat)
    requires x.Vec?
  {
    forall j :: i <= j < |x.elems| ==> Unbox(k, x.elems[j]).Ok?
  }

  // The items that the elements of x stand for.
  function Items(k: Kind, x: Value): seq<Item>
    requires x.Vec? && AllUnbox(k, x, 0)
  {
    seq(|x.elems|, j requires 0 <= j < |x.elems| => DataItem(Unbox(k, x.elems[j]).value))
  }

  // How many slots of the common prefix, from i on, hold different items.
  function Mismatches(old_: seq<Item>, new_: seq<Item>, i: nat): nat
    decreases |new_| - i
  {
    if i >= |old_| || i >= |new_| then 0
    else (if old_[i] != new_[i] then 1 else 0) + Mismatches(old_, new_, i + 1)
  }

  function Excess(m: nat, n: nat): nat {
    if m > n then m - n else 0
  }

  lemma ScalarStep(sc: Schema, T: Tables, a: Addr, kind: Kind, y: Value, items: seq<Item>, k: nat, m: Mode)
    requires ValidSchema(sc) && Has(T, a) && CellAt(T, a) == Many(items) && Unbox(kind, y).Ok?
    ensures var it := DataItem(Unbox(kind, y).value);
            && (k < |items| ==>
                  SetIfDifferent(sc, T, a, Basic(kind), y, k, m)
                  == Out(Put(T, a, Many(items[k := it])), Ok(()), if items[k] == it then 0 else 1))
            && Add(sc, T, a, Basic(kind), y, m) == Out(Put(T, a, Many(items + [it])), Ok(()), 1)
  {
    hide Create, Populate, SetProp, Assign, AssignFrom;
    PutSame(T, a);
    if k < |items| {
      assert items[k] == DataItem(Unbox(kind, y).value) ==> items[k := items[k]] == items;
    }
  }

  lemma {:induction false} ScalarLoop(sc: Schema, T: Tables, a: Addr, kind: Kind, x: Value, was: seq<Item>, k: nat, m: Mode)
    requires ValidSchema(sc) && Has(T, a) && x.Vec? && AllUnbox(kind, x, 0) && k <= |x.elems|
    requires CellAt(T, a) == Many(Items(kind, x)[..k] + if k < |was| then was[k..] else [])
    ensures var new_ := Items(kind, x);
            var n := |new_|;
            AssignFrom(sc, T, a, Basic(kind), x, k, |was|, m)
            == Out(Put(T, a, Many(new_ + if n < |was| then was[n..] else [])), Ok(()),
                   Mismatches(was, new_, k) + Excess(n, Longer(k, |was|)))
    decreases |x.elems| - k
  {
    hide Create, Populate, SetProp, Assign, SetIfDifferent, Add, Resolve;
    var new_ := Items(kind, x);
    var rest := if k < |was| then was[k..] else [];
    if k == |new_| {
      assert new_[..k] == new_;
      PutSame(T, a);
    } else {
      var next := if k + 1 < |was| then was[k + 1..] else [];
      var cell := Many(new_[..k + 1] + next);
      var o := if k < |was| then SetIfDifferent(sc, T, a, Basic(kind), x.elems[k], k, m)
               else Add(sc, T, a, Basic(kind), x.elems[k], m);
      ScalarStep(sc, T, a, kind, x.elems[k], new_[..k] + rest, k, m);
      assert new_[..k + 1] == new_[..k] + [new_[k]];
      if k < |was| {
        assert (new_[..k] + rest)[k] == was[k];
        assert (new_[..k] + rest)[k := new_[k]] == new_[..k + 1] + next;
      } else {
        assert new_[..k] + rest + [new_[k]] == new_[..k + 1] + next;
      }
      assert o.tables == Put(T, a, cell);
      ScalarLoop(sc, o.tables, a, kind, x, was, k + 1, m);
      PutPut(T, a, cell, Many(new_ + if |new_| < |was| then was[|new_|..] else []));
    }
  }

  // The list becomes the input.  Full mode clears it and adds everything; diff mode sets
  // exactly the mismatched slots of the common prefix and adds or removes the difference
  // in length.
  lemma AssignScalars(sc: Schema, T: Tables, a: Addr, kind: Kind, x: Value, m: Mode)
    requires ValidSchema(sc) && Has(T, a) && CellAt(T, a).Many? && x.Vec? && AllUnbox(kind, x, 0)
    ensures var was, new_ := ItemsAt(T, a), Items(kind, x);
            Assign(sc, T, a, Basic(kind), x, m)
            == Out(Put(T, a, Many(new_)), Ok(()),
                   if m.diff then Mismatches(was, new_, 0) + Excess(|new_|, |was|) + Excess(|was|, |new_|)
                   else |was| + |new_|)
  {
    hide Create, Populate, SetProp;
    var was, new_ := ItemsAt(T, a), Items(kind, x);
    if m.diff {
      assert new_[..0] + was[0..] == was;
      ScalarLoop(sc, T, a, kind, x, was, 0, m);
      var U := AssignFrom(sc, T, a, Basic(kind), x, 0, |was|, m).tables;
      RemoveTailIs(U, a, |new_|, |was|);
      var all := ItemsAt(U, a);
      assert all[..|new_|] == new_;
      PutPut(T, a, Many(all), Many(new_));
    } else {
      var U := Put(T, a, Many([]));
      var none: seq<Item> := [];
      assert new_[..0] + none == none;
      ScalarLoop(sc, U, a, kind, x, [], 0, m);
      assert new_ + none == new_;
      PutPut(T, a, Many([]), Many(new_));
    }
  }

  lemma StepFails(sc: Schema, T: Tables, a: Addr, kind: Kind, y: Value, k: nat, m: Mode)
    requires ValidSchema(sc) && Unbox(kind, y).Err?
    ensures SetIfDifferent(sc, T, a, Basic(kind), y, k, m)
         == Out(T, Err(if k < |ItemsAt(T, a)| then BadCast else OutOfBounds), 0)
    ensures Add(sc, T, a, Basic(kind), y, m) == Out(T, Err(BadCast), 0)
  {
    hide Create, Populate, SetProp, Assign, AssignFrom;
    assert Resolve(sc, T, Basic(kind), y, m.(diff := false), None, true).res.Err?;
    if k < |ItemsAt(T, a)| {
      var it := ItemsAt(T, a)[k];
      assert Resolve(sc, T, Basic(kind), y, m.(diff := true), if it.Ref? then Some(it.row) else None, true).res.Err?;
    }
  }

  // An element that does not unbox stops the assignment, whatever the list holds.
  lemma {:induction false} ScalarFails(sc: Schema, T: Tables, a: Addr, kind: Kind, x: Value, k: nat, sz: nat, m: Mode)
    requires ValidSchema(sc) && x.Vec? && k <= |x.elems| && !AllUnbox(kind, x, k)
    ensures AssignFrom(sc, T, a, Basic(kind), x, k, sz, m).res.Err?
    decreases |x.elems| - k
  {
    hide Create, Populate, SetProp, Assign, SetIfDifferent, Add, Resolve;
    var o := if k < sz then SetIfDifferent(sc, T, a, Basic(kind), x.elems[k], k, m)
             else Add(sc, T, a, Basic(kind), x.elems[k], m);
    if Unbox(kind, x.elems[k]).Err? {
      StepFails(sc, T, a, kind, x.elems[k], k, m);
    } else if o.res.Ok? {
      ScalarFails(sc, o.tables, a, kind, x, k + 1, sz, m);
    }
  }

  lemma {:induction false} ScalarStops(sc: Schema, T: Tables, a: Addr, kind: Kind, x: Value, was: seq<Item>, k: nat, j: nat, m: Mode)
    requires ValidSchema(sc) && Has(T, a) && x.Vec? && k <= j < |x.elems| && Unbox(kind, x.elems[j]).Err?
    requires AllUnbox(kind, Vec(x.elems[..j]), 0)
    requires CellAt(T, a) == Many(Items(kind, Vec(x.elems[..j]))[..k] + if k < |was| then was[k..] else [])
    ensures var done := Items(kind, Vec(x.elems[..j]));
            AssignFrom(sc, T, a, Basic(kind), x, k, |was|, m).tables
            == Put(T, a, Many(done + if j < |was| then was[j..] else []))
    ensures AssignFrom(sc, T, a, Basic(kind), x, k, |was|, m).res == Err(BadCast)
    decreases j - k
  {
    hide Create, Populate, SetProp, Assign, SetIfDifferent, Add, Resolve;
    var done := Items(kind, Vec(x.elems[..j]));
    var rest := if k < |was| then was[k..] else [];
    if k == j {
      assert done[..k] == done;
      PutSame(T, a);
      StepFails(sc, T, a, kind, x.elems[k], k, m);
    } else {
      var next := if k + 1 < |was| then was[k + 1..] else [];
      var cell := Many(done[..k + 1] + next);
      assert x.elems[k] == x.elems[..j][k];
      ScalarStep(sc, T, a, kind, x.elems[k], done[..k] + rest, k, m);
      assert done[..k + 1] == done[..k] + [done[k]];
      if k < |was| {
        assert (done[..k] + rest)[k := done[k]] == done[..k + 1] + next;
      } else {
        assert done[..k] + rest + [done[k]] == done[..k + 1] + next;
      }
      ScalarStops(sc, Put(T, a, cell), a, kind, x, was, k + 1, j, m);
      PutPut(T, a, cell, Many(done + if j < |was| then was[j..] else []));
    }
  }

  // An assignment that meets an element of another kind fails there and leaves what it did:
  // the elements before it are in the list, and in diff mode the old items after them.
  lemma AssignStops(sc: Schema, T: Tables, a: Addr, kind: Kind, x: Value, j: nat, m: Mode)
    requires ValidSchema(sc) && Has(T, a) && CellAt(T, a).Many? && x.Vec? && j < |x.elems|
    requires AllUnbox(kind, Vec(x.elems[..j]), 0) && Unbox(kind, x.elems[j]).Err?
    ensures var was, done := ItemsAt(T, a), Items(kind, Vec(x.elems[..j]));
            var o := Assign(sc, T, a, Basic(kind), x, m);
            o.res == Err(BadCast) && o.tables == Put(T, a, Many(done + if m.diff && j < |was| then was[j..] else []))
  {
    hide Create, Populate, SetProp, AssignFrom;
    var was, done := ItemsAt(T, a), Items(kind, Vec(x.elems[..j]));
    if m.diff {
      assert done[..0] + was[0..] == was;
      ScalarStops(sc, T, a, kind, x, was, 0, j, m);
    } else {
      var U := Put(T, a, Many([]));
      var none: seq<Item> := [];
      assert done[..0] + none == none;
      ScalarStops(sc, U, a, kind, x, [], 0, j, m);
      PutPut(T, a, Many([]), Many(done + []));
    }
  }

  // What a list of scalars may be assigned: itself, null, or scalars of its kind.
  predicate Assignable(kind: Kind, a: Addr, x: Value) {
    x == ListBox(a) || x.Null? || (x.Vec? && AllUnbox(kind, x, 0))
  }

  function Assigned(kind: Kind, a: Addr, x: Value, was: seq<Item>): seq<Item>
    requires Assignable(kind, a, x)
  {
    if x == ListBox(a) then was else if x.Null? then [] else Items(kind, x)
  }

  // In either mode an assignment succeeds exactly on these, only the list changes, and
  // assigning the same value again then writes nothing in diff mode.
  lemma AssignIff(sc: Schema, T: Tables, a: Addr, kind: Kind, x: Value, m: Mode, again: Mode)
    requires ValidSchema(sc) && Has(T, a) && CellAt(T, a).Many?
    ensures var o := Assign(sc, T, a, Basic(kind), x, m);
            && (o.res.Ok? <==> Assignable(kind, a, x))
            && (o.res.Ok? ==>
                  && o.tables == Put(T, a, Many(Assigned(kind, a, x, ItemsAt(T, a))))
                  && Assign(sc, o.tables, a, Basic(kind), x, again).tables == o.tables
                  && (again.diff ==> Assign(sc, o.tables, a, Basic(kind), x, again).writes == 0))
  {
    hide Create, Populate, SetProp, AssignFrom;
    PutSame(T, a);
    if x.Vec? && AllUnbox(kind, x, 0) {
      var new_ := Items(kind, x);
      var U := Put(T, a, Many(new_));
      AssignScalars(sc, T, a, kind, x, m);
      AssignScalars(sc, U, a, kind, x, again);
      NoMismatch(new_, 0);
      PutPut(T, a, Many(new_), Many(new_));
    } else if x.Vec? {
      ScalarFails(sc, T, a, kind, x, 0, |ItemsAt(T, a)|, m);
      ScalarFails(sc, Put(T, a, Many([])), a, kind, x, 0, 0, m);
    } else if x.Null? {
      PutPut(T, a, Many([]), Many([]));
    }
  }

  lemma {:induction false} NoMismatch(s: seq<Item>, i: nat)
    ensures Mismatches(s, s, i) == 0
    decreases |s| - i
  {
    if i < |s| {
      NoMismatch(s, i + 1);
    }
  }
}
