/** What Object::create and the functions it calls do to the tables, as functions.

    Each function returns the tables it leaves behind (also when it fails midway),
    its result, and the number of writes it issued: rows added, cells set, list
    entries set, added or removed. */
module UpsertSpec {
  import opened RealmModel

  // try_update, update_only_diff, and whether the Realm is in a migration.
  datatype Mode = Mode(tryUpdate: bool, diff: bool, migrating: bool)

  datatype Out<+R> = Out(tables: Tables, res: Result<R>, writes: nat)

  // The primary key cell that the value asks for.
  function KeyFor(ot: ObjectType, v: Value): Result<Cell>
    requires ot.primary.Some? && ot.primary.value < |ot.props|
  {
    var p := ot.props[ot.primary.value];
    match Lookup(v, p.name)
    case Err(e) => Err(e)
    case Ok(None) => if Required(p.typ) then Err(MissingValue) else Ok(Empty)
    case Ok(Some(x)) =>
      if x.Null? then (if Required(p.typ) then Err(NullKey) else Ok(Empty))
      else if p.typ.elem.Object? then Err(BadCast)
      else match Unbox(p.typ.elem.kind, x)
        case Err(e) => Err(e)
        case Ok(s) => Ok(One(DataItem(s)))
  }

  // Object::create
  function Create(sc: Schema, T: Tables, t: nat, v: Value, m: Mode, cur: Option<nat>): Out<nat>
    requires ValidSchema(sc) && t < |sc|
    decreases v, 2, 0
  {
    var ot := sc[t];
    assert ValidType(sc, ot);
    if ot.primary.Some? then
      match KeyFor(ot, v)
      case Err(e) => Out(T, Err(e), 0)
      case Ok(k) =>
        match FindFirst(sc, T, t, k)
        case None =>
          var U := Put(AddRow(sc, T, t), Addr(t, Size(T, t), ot.primary.value), k);
          Counting(2, Populate(sc, U, t, Size(T, t), v, m, true, true, 0))
        case Some(r) =>
          if m.tryUpdate then Populate(sc, T, t, r, v, m, false, true, 0)
          else if m.migrating then
            Counting(1, Populate(sc, AddRow(sc, T, t), t, Size(T, t), v, m, true, false, 0))
          else Out(T, Err(DuplicateKey), 0)
    else if m.diff && cur.Some? then
      Populate(sc, T, t, cur.value, v, m, false, true, 0)
    else
      Counting(1, Populate(sc, AddRow(sc, T, t), t, Size(T, t), v, m, true, true, 0))
  }

  function Counting<R>(n: nat, o: Out<R>): Out<R> {
    o.(writes := n + o.writes)
  }

  // The loop of Object::create over the persisted properties, from property i on.
  function Populate(sc: Schema, T: Tables, t: nat, r: nat, v: Value, m: Mode,
                    created: bool, skipPrimary: bool, i: nat): Out<nat>
    requires ValidSchema(sc) && t < |sc| && i <= |sc[t].props|
    decreases v, 1, |sc[t].props| - i
  {
    if i == |sc[t].props| then Out(T, Ok(r), 0)
    else if skipPrimary && sc[t].primary == Some(i) then
      Populate(sc, T, t, r, v, m, created, skipPrimary, i + 1)
    else
      var p := sc[t].props[i];
      assert ValidType(sc, sc[t]) && ValidProp(sc, p.typ);
      match Lookup(v, p.name)
      case Err(e) => Out(T, Err(e), 0)
      case Ok(None) =>
        if created && Required(p.typ) then Out(T, Err(MissingValue), 0)
        else Populate(sc, T, t, r, v, m, created, skipPrimary, i + 1)
      case Ok(Some(x)) =>
        if x.Null? && Required(p.typ) then Out(T, Err(MissingValue), 0)
        else
          var o := SetProp(sc, T, Addr(t, r, i), p.typ, x, m);
          if o.res.Err? then Out(o.tables, Err(o.res.error), o.writes)
          else Counting(o.writes, Populate(sc, o.tables, t, r, v, m, created, skipPrimary, i + 1))
  }

  // Object::set_property_value_impl
  function SetProp(sc: Schema, T: Tables, a: Addr, p: PropType, x: Value, m: Mode): Out<()>
    requires ValidSchema(sc) && ValidProp(sc, p)
    decreases x, 5, 0
  {
    match p
    case Single(e, nullable) =>
      if nullable && x.Null? then
        if !m.diff || CellAt(T, a) != Empty then Out(Put(T, a, Empty), Ok(()), 1) else Out(T, Ok(()), 0)
      else
        var o := Resolve(sc, T, e, x, m, LinkAt(T, a), false);
        if o.res.Err? then Out(o.tables, Err(o.res.error), o.writes)
        else if !m.diff || CellAt(T, a) != One(o.res.value) then
          Out(Put(o.tables, a, One(o.res.value)), Ok(()), o.writes + 1)
        else Out(o.tables, Ok(()), o.writes)
    case Array(e) => Assign(sc, T, a, e, x, m)
  }

  // Object::set_property_value: what a caller may set on an attached object.
  function SetNamed(sc: Schema, T: Tables, a: Addr, x: Value, m: Mode): Out<()>
    requires ValidSchema(sc)
  {
    if !Has(T, a) || a.t >= |sc| || a.c >= |sc[a.t].props| then Out(T, Err(InvalidRow), 0)
    else
      assert ValidType(sc, sc[a.t]);
      if sc[a.t].primary == Some(a.c) && !m.migrating then Out(T, Err(ModifyPrimaryKey), 0)
      else SetProp(sc, T, a, sc[a.t].props[a.c].typ, x, m.(diff := false))
  }

  // Object::get_property_value_impl, for the persisted properties.
  function GetProperty(sc: Schema, T: Tables, a: Addr): Value
    requires a.t < |sc| && a.c < |sc[a.t].props|
  {
    match sc[a.t].props[a.c].typ
    case Array(_) => ListBox(a)
    case Single(e, nullable) =>
      var x := CellAt(T, a);
      if !x.One? then Null
      else match x.item
        case DataItem(s) => Plain(s)
        case Ref(r) => if e.Object? then RowBox(e.target, r) else Null
  }

  // List::get
  function GetItem(e: Elem, it: Item): Value {
    match it
    case DataItem(s) => Plain(s)
    case Ref(r) => if e.Object? then RowBox(e.target, r) else Null
  }

  // unbox<T>(value, create = true, try_update, update_only_diff, current_row), and the
  // check with which a link column or a list refuses a row that it cannot point at.
  function Resolve(sc: Schema, T: Tables, e: Elem, x: Value, m: Mode, cur: Option<nat>, inList: bool): Out<Item>
    requires ValidSchema(sc) && (e.Object? ==> e.target < |sc|)
    decreases x, 3, 0
  {
    match e
    case Basic(k) =>
      (match Unbox(k, x)
       case Err(err) => Out(T, Err(err), 0)
       case Ok(s) => Out(T, Ok(DataItem(s)), 0))
    case Object(target) =>
      if x.RowBox? then
        if (inList && x.table != target) || x.row >= Size(T, target) then Out(T, Err(InvalidRow), 0)
        else Out(T, Ok(Ref(x.row)), 0)
      else
        var o := Create(sc, T, target, x, m, cur);
        match o.res
        case Err(err) => Out(o.tables, Err(err), o.writes)
        case Ok(r) => Out(o.tables, Ok(Ref(r)), o.writes)
  }

  // List::assign
  function Assign(sc: Schema, T: Tables, a: Addr, e: Elem, x: Value, m: Mode): Out<()>
    requires ValidSchema(sc) && (e.Object? ==> e.target < |sc|)
    decreases x, 4, 0
  {
    var n := |ItemsAt(T, a)|;
    if x == ListBox(a) then Out(T, Ok(()), 0)
    else if x.Null? then Out(Put(T, a, Many([])), Ok(()), n)
    else if m.diff then
      if !x.Vec? then Out(T, Err(BadCast), 0)
      else
        var o := AssignFrom(sc, T, a, e, x, 0, n, m);
        if o.res.Err? then o else Counting(o.writes, RemoveTail(o.tables, a, |x.elems|, n))
    else
      var U := Put(T, a, Many([]));
      if !x.Vec? then Out(U, Err(BadCast), n)
      else Counting(n, AssignFrom(sc, U, a, e, x, 0, 0, m))
  }

  // The body of enumerate_list, from element k on.  `sz` is the size of the list when
  // the comparison started: slots below it are compared and replaced, the rest is added.
  // After remove_all there is nothing to compare with, so `sz` is 0.
  function AssignFrom(sc: Schema, T: Tables, a: Addr, e: Elem, x: Value, k: nat, sz: nat, m: Mode): Out<()>
    requires ValidSchema(sc) && (e.Object? ==> e.target < |sc|)
    requires x.Vec? && k <= |x.elems|
    decreases x, 0, |x.elems| - k
  {
    if k == |x.elems| then Out(T, Ok(()), 0)
    else
      var o := if k < sz then SetIfDifferent(sc, T, a, e, x.elems[k], k, m) else Add(sc, T, a, e, x.elems[k], m);
      if o.res.Err? then o
      else Counting(o.writes, AssignFrom(sc, o.tables, a, e, x, k + 1, sz, m))
  }

  // List::set_if_different
  function SetIfDifferent(sc: Schema, T: Tables, a: Addr, e: Elem, y: Value, k: nat, m: Mode): Out<()>
    requires ValidSchema(sc) && (e.Object? ==> e.target < |sc|)
    decreases y, 4, 0
  {
    var items := ItemsAt(T, a);
    if k >= |items| then Out(T, Err(OutOfBounds), 0)
    else
      var cur := if items[k].Ref? then Some(items[k].row) else None;
      Replace(Resolve(sc, T, e, y, m.(diff := true), cur, true), a, k, items[k])
  }

  // ... once the new value is known: slot k is set if it held something else
  function Replace(o: Out<Item>, a: Addr, k: nat, was: Item): Out<()> {
    if o.res.Err? then Out(o.tables, Err(o.res.error), o.writes)
    else if was == o.res.value then Out(o.tables, Ok(()), o.writes)
    else
      var now := ItemsAt(o.tables, a);
      if k >= |now| then Out(o.tables, Err(OutOfBounds), o.writes)
      else Out(Put(o.tables, a, Many(now[k := o.res.value])), Ok(()), o.writes + 1)
  }

  // List::add
  function Add(sc: Schema, T: Tables, a: Addr, e: Elem, y: Value, m: Mode): Out<()>
    requires ValidSchema(sc) && (e.Object? ==> e.target < |sc|)
    decreases y, 4, 0
  {
    var o := Resolve(sc, T, e, y, m.(diff := false), None, true);
    if o.res.Err? then Out(o.tables, Err(o.res.error), o.writes)
    else Out(Put(o.tables, a, Many(ItemsAt(o.tables, a) + [o.res.value])), Ok(()), o.writes + 1)
  }

  // while (index < sz) remove(--sz)
  function RemoveTail(T: Tables, a: Addr, index: nat, sz: nat): Out<()>
    decreases sz
  {
    var items := ItemsAt(T, a);
    if index >= sz then Out(T, Ok(()), 0)
    else if sz - 1 >= |items| then Out(T, Err(OutOfBounds), 0)
    else
      var U := Put(T, a, Many(items[..sz - 1] + items[sz..]));
      Counting(1, RemoveTail(U, a, index, sz - 1))
  }
}
