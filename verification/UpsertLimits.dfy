/** Where the results stop: the conditions of UpsertTheorems cannot be dropped. */
module UpsertLimits {
  import opened RealmModel
  import opened UpsertSpec
  import opened UpsertInvariant
  import opened UpsertFrame
  import opened UpsertReadBack
  import opened UpsertModes

  // A type without a primary key: when there is a current row, diff mode writes it in
  // place and full mode writes a new one, so the two never return the same object.
  lemma UnkeyedModesDiffer(sc: Schema, T: Tables, t: nat, v: Value, m: Mode, r: nat)
    requires ValidSchema(sc) && Typed(sc, T) && t < |sc| && sc[t].primary.None? && r < Size(T, t)
    ensures var full := Create(sc, T, t, v, m.(diff := false), Some(r));
            var diff := Create(sc, T, t, v, m.(diff := true), Some(r));
            && (full.res.Ok? ==> full.res.value == Size(T, t) && Size(full.tables, t) > Size(T, t))
            && (diff.res.Ok? ==> diff.res.value == r)
  {
    hide Populate, UniqueKeys;
    AddRowTyped(sc, T, t);
    PopulateSafe(sc, AddRow(sc, T, t), t, Size(T, t), v, m.(diff := false), true, 0);
    PopulateSafe(sc, T, t, r, v, m.(diff := true), false, 0);
  }

  // ---------- a row without a key that two entries name ----------

  // An owner with a key and a list of leaves, which have none.
  const Leaves := [ObjectType([Property("id", Single(Basic(Int), false)), Property("kids", Array(Object(1)))], Some(0)),
                   ObjectType([Property("n", Single(Basic(Int), false))], None)]

  function Leaf(n: int): Value { Dict(map["n" := Plain(IntS(n))]) }

  // One leaf, holding n, twice in the list of one owner.
  function TwiceLeaf(n: int): Tables {
    [[[One(DataItem(IntS(1))), Many([Ref(0), Ref(0)])]], [[One(DataItem(IntS(n)))]]]
  }

  lemma LeafWrites(n: int, k: int, m: Mode)
    requires m.diff
    ensures ValidSchema(Leaves)
    ensures var o := Create(Leaves, TwiceLeaf(n), 1, Leaf(k), m, Some(0));
            o.res == Ok(0) && o.tables == TwiceLeaf(k)
  {
    var T, a, c := TwiceLeaf(n), Addr(1, 0, 0), One(DataItem(IntS(k)));
    var U := Put(T, a, c);
    assert U[1][0] == [c] && U[1] == [[c]] && U[0] == T[0];
    assert U == TwiceLeaf(k);
    assert Lookup(Leaf(k), "n") == Ok(Some(Plain(IntS(k))));
    assert Populate(Leaves, TwiceLeaf(k), 1, 0, Leaf(k), m, false, true, 1) == Out(TwiceLeaf(k), Ok(0), 0);
    assert SetProp(Leaves, T, a, Single(Basic(Int), false), Plain(IntS(k)), m).tables == TwiceLeaf(k);
    assert Populate(Leaves, T, 1, 0, Leaf(k), m, false, true, 0).tables == TwiceLeaf(k);
  }

  // In diff mode both entries of [{n: 1}, {n: 2}] are written into the one leaf: the list
  // has the right length, but its first entry reads back as 2.
  lemma ReusedRowReadsBackWrong(n: int)
    ensures ValidSchema(Leaves)
    ensures var o := Assign(Leaves, TwiceLeaf(n), Addr(0, 0, 1), Object(1), Vec([Leaf(1), Leaf(2)]), Mode(true, true, false));
            o.res.Ok? && o.tables == TwiceLeaf(2)
  {
    hide Create;
    var m, a := Mode(true, true, false), Addr(0, 0, 1);
    var x := Vec([Leaf(1), Leaf(2)]);
    assert m.(diff := true) == m;
    LeafWrites(n, 1, m);
    LeafWrites(1, 2, m);
    assert SetIfDifferent(Leaves, TwiceLeaf(n), a, Object(1), Leaf(1), 0, m).tables == TwiceLeaf(1);
    assert SetIfDifferent(Leaves, TwiceLeaf(1), a, Object(1), Leaf(2), 1, m).tables == TwiceLeaf(2);
    assert AssignFrom(Leaves, TwiceLeaf(2), a, Object(1), x, 2, 2, m) == Out(TwiceLeaf(2), Ok(()), 0);
    assert AssignFrom(Leaves, TwiceLeaf(1), a, Object(1), x, 1, 2, m).tables == TwiceLeaf(2);
    assert RemoveTail(TwiceLeaf(2), a, 2, 2) == Out(TwiceLeaf(2), Ok(()), 0);
  }

  // ---------- a key that comes back inside its own subtree ----------

  // One type: an Int key and a list of objects of the same type.
  const Node := [ObjectType([Property("id", Single(Basic(Int), false)), Property("kids", Array(Object(0)))], Some(0))]

  const Inner := Dict(map["id" := Plain(IntS(1)), "kids" := Vec([])])
  const Outer := Dict(map["id" := Plain(IntS(1)), "kids" := Vec([Inner])])

  const IdCell := One(DataItem(IntS(1)))

  function OneNode(kids: seq<Item>): Tables {
    [[[IdCell, Many(kids)]]]
  }

  lemma NodeValid()
    ensures ValidSchema(Node) && Keyed(Node)
    ensures forall kids :: FindFirst(Node, OneNode(kids), 0, IdCell) == Some(0)
    ensures KeyFor(Node[0], Inner) == Ok(IdCell) && KeyFor(Node[0], Outer) == Ok(IdCell)
  {
    forall kids ensures FindFirst(Node, OneNode(kids), 0, IdCell) == Some(0) {
      assert KeyAt(Node, OneNode(kids), 0, 0) == IdCell;
    }
  }

  lemma PutKids(kids: seq<Item>, others: seq<Item>)
    ensures Put(OneNode(kids), Addr(0, 0, 1), Many(others)) == OneNode(others)
    ensures ItemsAt(OneNode(kids), Addr(0, 0, 1)) == kids
  {
    var P := Put(OneNode(kids), Addr(0, 0, 1), Many(others));
    assert P[0][0] == OneNode(others)[0][0];
    assert P[0] == OneNode(others)[0];
  }

  // Creating Inner empties the list of the one object, in both modes.
  lemma InnerEmpties(kids: seq<Item>, diff: bool, cur: Option<nat>)
    requires |kids| <= 1
    ensures ValidSchema(Node)
    ensures var o := Create(Node, OneNode(kids), 0, Inner, Mode(true, diff, false), cur);
            o.res == Ok(0) && o.tables == OneNode([])
  {
    NodeValid();
    var m := Mode(true, diff, false);
    var T := OneNode(kids);
    var a := Addr(0, 0, 1);
    var x := Vec([]);
    PutKids(kids, []);
    if diff {
      assert AssignFrom(Node, T, a, Object(0), x, 0, |kids|, m) == Out(T, Ok(()), 0);
      RemoveTailIs(T, a, 0, |kids|);
    } else {
      assert AssignFrom(Node, OneNode([]), a, Object(0), x, 0, 0, m) == Out(OneNode([]), Ok(()), 0);
    }
    assert SetProp(Node, T, a, Array(Object(0)), x, m).tables == OneNode([]);
    assert SetProp(Node, T, a, Array(Object(0)), x, m).res.Ok?;
    assert Populate(Node, OneNode([]), 0, 0, Inner, m, false, true, 2) == Out(OneNode([]), Ok(0), 0);
    assert Lookup(Inner, "kids") == Ok(Some(x));
    assert Populate(Node, T, 0, 0, Inner, m, false, true, 1).tables == OneNode([]);
    assert Populate(Node, T, 0, 0, Inner, m, false, true, 1).res == Ok(0);
    assert Populate(Node, T, 0, 0, Inner, m, false, true, 0) == Populate(Node, T, 0, 0, Inner, m, false, true, 1);
  }

  // The object holds itself as its only kid.  Full mode ends with that list, diff mode
  // finds the slot unchanged and ends with the empty list that the nested upsert left.
  lemma RepeatedKeyModesDiffer()
    ensures ValidSchema(Node) && Keyed(Node) && !NoReturnOf(Node, 0, Outer)
    ensures var T := OneNode([Ref(0)]);
            var full := Create(Node, T, 0, Outer, Mode(true, false, false), None);
            var diff := Create(Node, T, 0, Outer, Mode(true, true, false), None);
            && full.res == diff.res == Ok(0)
            && full.tables == OneNode([Ref(0)]) && diff.tables == OneNode([])
  {
    NodeValid();
    OuterRepeats();
    OuterEnds(false);
    OuterEnds(true);
  }

  lemma OuterRepeats()
    ensures ValidSchema(Node) && Keyed(Node) && !NoReturnOf(Node, 0, Outer)
  {
    NodeValid();
    var k := Key(0, IdCell);
    var x := Vec([Inner]);
    assert k in OwnKey(Node, 0, Inner);
    assert k in KeysOf(Node, 0, Inner);
    assert k in KeysItem(Node, Object(0), Inner);
    assert k in KeysElems(Node, Object(0), x, 0);
    assert Lookup(Outer, "kids") == Ok(Some(x));
    assert k in KeysFrom(Node, 0, Outer, 1);
    assert k in KeysFrom(Node, 0, Outer, 0);
    assert k in OwnKey(Node, 0, Outer);
  }

  // What assigning [Inner] to the list of the one object ends with.
  lemma OuterList(diff: bool)
    ensures ValidSchema(Node)
    ensures var o := Assign(Node, OneNode([Ref(0)]), Addr(0, 0, 1), Object(0), Vec([Inner]), Mode(true, diff, false));
            o.res.Ok? && o.tables == OneNode(if diff then [] else [Ref(0)])
  {
    hide Create, Populate, SetProp;
    NodeValid();
    var m := Mode(true, diff, false);
    var T := OneNode([Ref(0)]);
    var a := Addr(0, 0, 1);
    var x := Vec([Inner]);
    PutKids([Ref(0)], []);
    assert m.(diff := diff) == m;
    if diff {
      InnerEmpties([Ref(0)], true, Some(0));
      var s := SetIfDifferent(Node, T, a, Object(0), Inner, 0, m);
      assert s.tables == OneNode([]) && s.res.Ok?;
      assert AssignFrom(Node, OneNode([]), a, Object(0), x, 1, 1, m) == Out(OneNode([]), Ok(()), 0);
      assert RemoveTail(OneNode([]), a, 1, 1) == Out(OneNode([]), Ok(()), 0);
    } else {
      InnerEmpties([], false, None);
      var s := Add(Node, OneNode([]), a, Object(0), Inner, m);
      var none: seq<Item> := [];
      assert none + [Ref(0)] == [Ref(0)];
      PutKids([], none + [Ref(0)]);
      assert s.tables == T && s.res.Ok?;
      assert AssignFrom(Node, T, a, Object(0), x, 1, 0, m) == Out(T, Ok(()), 0);
    }
  }

  lemma OuterEnds(diff: bool)
    ensures ValidSchema(Node)
    ensures var o := Create(Node, OneNode([Ref(0)]), 0, Outer, Mode(true, diff, false), None);
            o.res == Ok(0) && o.tables == OneNode(if diff then [] else [Ref(0)])
  {
    hide Assign;
    NodeValid();
    OuterList(diff);
    var m := Mode(true, diff, false);
    var T := OneNode([Ref(0)]);
    var end := OneNode(if diff then [] else [Ref(0)]);
    assert Lookup(Outer, "kids") == Ok(Some(Vec([Inner])));
    assert Populate(Node, end, 0, 0, Outer, m, false, true, 2) == Out(end, Ok(0), 0);
    assert Populate(Node, T, 0, 0, Outer, m, false, true, 1).tables == end;
    assert Populate(Node, T, 0, 0, Outer, m, false, true, 0) == Populate(Node, T, 0, 0, Outer, m, false, true, 1);
  }

  // ---------- migrations ----------

  // In a migration a plain create that succeeds under an existing key makes a second row
  // with that key, whatever else the type and the value hold.
  lemma MigrationDuplicatesKeys(sc: Schema, T: Tables, t: nat, v: Value, diff: bool, cur: Option<nat>)
    requires ValidSchema(sc) && Typed(sc, T) && t < |sc| && sc[t].primary.Some? && ValidType(sc, sc[t])
    requires KeyFor(sc[t], v).Ok? && FindFirst(sc, T, t, KeyFor(sc[t], v).value).Some?
    ensures var o := Create(sc, T, t, v, Mode(false, diff, true), cur);
            o.res.Ok? ==> o.res.value == Size(T, t) && !UniqueKeys(sc, o.tables)
  {
    hide Populate;
    var m := Mode(false, diff, true);
    var k := KeyFor(sc[t], v).value;
    var r := FindFirst(sc, T, t, k).value;
    var n := Size(T, t);
    var N := AddRow(sc, T, t);
    AddRowTyped(sc, T, t);
    PopulateLoose(sc, N, t, n, v, m, 0);
    var o := Create(sc, T, t, v, m, cur);
    if o.res.Ok? {
      assert N[t][n] == DefaultRow(sc[t]);
      assert KeyAt(sc, o.tables, t, n) == k;
      assert KeyAt(sc, o.tables, t, r) == KeyAt(sc, N, t, r) == KeyAt(sc, T, t, r) == k;
    }
  }
}
