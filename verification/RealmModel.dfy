/** The data of the object accessor: schemas, boxed input values, tables.

    A table is a sequence of rows, a row a sequence of cells, one per persisted
    property (the property's position stands for its `table_column`).  Links and
    list entries hold row indexes of their target table.  Nothing here deletes
    rows, so a row index identifies a row for good. */
module RealmModel {

  datatype Option<+T> = None | Some(value: T)

  datatype Error = BadCast | MissingValue | NullKey | DuplicateKey | OutOfBounds | InvalidRow | ModifyPrimaryKey

  datatype Result<+T> = Ok(value: T) | Err(error: Error)

  // ---------- schema ----------

  datatype Kind = Int | Bool | Float | Double | String | Data | Date

  // What a property, or one entry of an array property, holds.
  datatype Elem = Basic(kind: Kind) | Object(target: nat)

  datatype PropType = Single(elem: Elem, nullable: bool) | Array(elem: Elem)

  datatype Property = Property(name: string, typ: PropType)

  datatype ObjectType = ObjectType(props: seq<Property>, primary: Option<nat>)

  type Schema = seq<ObjectType>

  predicate ValidKey(p: PropType) {
    p.Single? && (p.elem == Basic(Int) || p.elem == Basic(String))
  }

  predicate ValidType(sc: Schema, ot: ObjectType) {
    && (forall i :: 0 <= i < |ot.props| ==> ValidProp(sc, ot.props[i].typ))
    && (ot.primary.Some? ==> ot.primary.value < |ot.props| && ValidKey(ot.props[ot.primary.value].typ))
  }

  // Objects are stored either in arrays or nullable, never both (PropertyType::Object).
  predicate ValidProp(sc: Schema, p: PropType) {
    p.elem.Object? ==> p.elem.target < |sc| && (p.Single? ==> p.nullable)
  }

  predicate ValidSchema(sc: Schema) {
    forall t :: 0 <= t < |sc| ==> ValidType(sc, sc[t])
  }

  // Every object type declares a primary key.
  predicate Keyed(sc: Schema) {
    forall t :: 0 <= t < |sc| ==> sc[t].primary.Some?
  }

  predicate Required(p: PropType) {
    p.Single? && !p.nullable
  }

  // ---------- boxed values (util::Any as CppContext reads it) ----------

  datatype Scalar =
    | IntS(i: int) | BoolS(b: bool) | FloatS(f: real) | DoubleS(d: real)
    | TextS(s: string) | DateS(seconds: int, nanoseconds: int)

  datatype Value =
    | Null
    | Plain(s: Scalar)
    | RowBox(table: nat, row: nat)               // a managed Object or a RowExpr
    | ListBox(home: Addr)                        // a managed List
    | Dict(fields: map<string, Value>)           // AnyDict
    | Vec(elems: seq<Value>)                     // AnyVector

  predicate Fits(k: Kind, s: Scalar) {
    match k
    case Int => s.IntS?
    case Bool => s.BoolS?
    case Float => s.FloatS?
    case Double => s.DoubleS?
    case String => s.TextS?
    case Data => s.TextS?
    case Date => s.DateS?
  }

  // unbox<T> for the scalar types: any_cast fails on anything but a T.
  function Unbox(k: Kind, v: Value): Result<Scalar> {
    if v.Plain? && Fits(k, v.s) then Ok(v.s) else Err(BadCast)
  }

  // value_for_property: the value must be a dictionary; a missing name is no error.
  function Lookup(v: Value, name: string): Result<Option<Value>> {
    if !v.Dict? then Err(BadCast)
    else if name in v.fields then Ok(Some(v.fields[name]))
    else Ok(None)
  }

  // ---------- tables ----------

  datatype Item = DataItem(s: Scalar) | Ref(row: nat)

  datatype Cell = Empty | One(item: Item) | Many(items: seq<Item>)

  type Row = seq<Cell>
  type Table = seq<Row>
  type Tables = seq<Table>

  datatype Addr = Addr(t: nat, r: nat, c: nat)

  predicate Has(T: Tables, a: Addr) {
    a.t < |T| && a.r < |T[a.t]| && a.c < |T[a.t][a.r]|
  }

  function CellAt(T: Tables, a: Addr): Cell {
    if Has(T, a) then T[a.t][a.r][a.c] else Empty
  }

  function ItemsAt(T: Tables, a: Addr): seq<Item> {
    var x := CellAt(T, a);
    if x.Many? then x.items else []
  }

  function LinkAt(T: Tables, a: Addr): Option<nat> {
    var x := CellAt(T, a);
    if x.One? && x.item.Ref? then Some(x.item.row) else None
  }

  function Size(T: Tables, t: nat): nat {
    if t < |T| then |T[t]| else 0
  }

  function Put(T: Tables, a: Addr, x: Cell): Tables {
    if Has(T, a) then T[a.t := T[a.t][a.r := T[a.t][a.r][a.c := x]]] else T
  }

  function Zero(k: Kind): Scalar {
    match k
    case Int => IntS(0)
    case Bool => BoolS(false)
    case Float => FloatS(0.0)
    case Double => DoubleS(0.0)
    case String => TextS("")
    case Data => TextS("")
    case Date => DateS(0, 0)
  }

  function DefaultCell(p: PropType): Cell {
    match p
    case Array(_) => Many([])
    case Single(e, nullable) =>
      if nullable || e.Object? then Empty else One(DataItem(Zero(e.kind)))
  }

  function DefaultRow(ot: ObjectType): Row {
    seq(|ot.props|, i requires 0 <= i < |ot.props| => DefaultCell(ot.props[i].typ))
  }

  // Table::add_empty_row
  function AddRow(sc: Schema, T: Tables, t: nat): Tables {
    if t < |T| && t < |sc| then T[t := T[t] + [DefaultRow(sc[t])]] else T
  }

  // The primary key cell of a row (Empty for a null key).
  function KeyAt(sc: Schema, T: Tables, t: nat, r: nat): Cell {
    if t < |sc| && sc[t].primary.Some? then CellAt(T, Addr(t, r, sc[t].primary.value)) else Empty
  }

  // Table::find_first on the primary key column: the first row holding k.
  function FindFrom(sc: Schema, T: Tables, t: nat, k: Cell, from: nat): (r: Option<nat>)
    ensures r.Some? ==> from <= r.value < Size(T, t) && KeyAt(sc, T, t, r.value) == k
    ensures r.Some? ==> forall j :: from <= j < r.value ==> KeyAt(sc, T, t, j) != k
    ensures r.None? ==> forall j :: from <= j < Size(T, t) ==> KeyAt(sc, T, t, j) != k
    decreases Size(T, t) - from
  {
    if from >= Size(T, t) then None
    else if KeyAt(sc, T, t, from) == k then Some(from)
    else FindFrom(sc, T, t, k, from + 1)
  }

  function FindFirst(sc: Schema, T: Tables, t: nat, k: Cell): Option<nat> {
    FindFrom(sc, T, t, k, 0)
  }

  // ---------- well-formed stores ----------

  predicate ItemOk(T: Tables, e: Elem, it: Item) {
    match e
    case Basic(k) => it.DataItem? && Fits(k, it.s)
    case Object(t) => it.Ref? && it.row < Size(T, t)
  }

  predicate CellOk(T: Tables, p: PropType, x: Cell) {
    match p
    case Single(e, nullable) => if x.One? then ItemOk(T, e, x.item) else x.Empty? && nullable
    case Array(e) => x.Many? && forall i :: 0 <= i < |x.items| ==> ItemOk(T, e, x.items[i])
  }

  predicate RowOk(T: Tables, ot: ObjectType, row: Row) {
    |row| == |ot.props| && forall c :: 0 <= c < |row| ==> CellOk(T, ot.props[c].typ, row[c])
  }

  // Every cell has its property's type; every link and list entry is a row of the target table.
  predicate Typed(sc: Schema, T: Tables) {
    && |T| == |sc|
    && forall t, r :: 0 <= t < |T| && 0 <= r < |T[t]| ==> RowOk(T, sc[t], T[t][r])
  }

  predicate UniqueKeys(sc: Schema, T: Tables) {
    forall t, r, q :: 0 <= t < |sc| && sc[t].primary.Some? && 0 <= r < q < Size(T, t)
      ==> KeyAt(sc, T, t, r) != KeyAt(sc, T, t, q)
  }

  predicate Grows(T: Tables, U: Tables) {
    |T| == |U| && forall t :: 0 <= t < |T| ==> |T[t]| <= |U[t]|
  }

  predicate KeepsKeys(sc: Schema, T: Tables, U: Tables) {
    forall t, r :: 0 <= t < |T| && 0 <= r < |T[t]| ==> KeyAt(sc, U, t, r) == KeyAt(sc, T, t, r)
  }

  lemma RowOkGrows(T: Tables, U: Tables, ot: ObjectType, row: Row)
    requires Grows(T, U) && RowOk(T, ot, row)
    ensures RowOk(U, ot, row)
  {
    forall c | 0 <= c < |row| ensures CellOk(U, ot.props[c].typ, row[c]) {
      assert CellOk(T, ot.props[c].typ, row[c]);
    }
  }

  lemma PutTyped(sc: Schema, T: Tables, a: Addr, x: Cell)
    requires Typed(sc, T) && Has(T, a) && CellOk(T, sc[a.t].props[a.c].typ, x)
    ensures Typed(sc, Put(T, a, x)) && Grows(T, Put(T, a, x))
  {
    var U := Put(T, a, x);
    forall t, r | 0 <= t < |U| && 0 <= r < |U[t]| ensures RowOk(U, sc[t], U[t][r]) {
      assert RowOk(T, sc[t], T[t][r]);
      RowOkGrows(T, U, sc[t], T[t][r]);
    }
  }

  lemma AddRowTyped(sc: Schema, T: Tables, t: nat)
    requires ValidSchema(sc) && Typed(sc, T) && t < |sc|
    ensures Typed(sc, AddRow(sc, T, t)) && Grows(T, AddRow(sc, T, t))
    ensures Size(AddRow(sc, T, t), t) == Size(T, t) + 1
    ensures KeepsKeys(sc, T, AddRow(sc, T, t))
  {
    var U := AddRow(sc, T, t);
    assert ValidType(sc, sc[t]);
    forall u, r | 0 <= u < |U| && 0 <= r < |U[u]| ensures RowOk(U, sc[u], U[u][r]) {
      if r < |T[u]| {
        assert RowOk(T, sc[u], T[u][r]);
        RowOkGrows(T, U, sc[u], T[u][r]);
      } else {
        forall c | 0 <= c < |sc[t].props| ensures CellOk(U, sc[t].props[c].typ, U[u][r][c]) {
          assert ValidProp(sc, sc[t].props[c].typ);
        }
      }
    }
  }
}
