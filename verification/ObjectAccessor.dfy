/** The object accessor as it is written: methods that write the tables in place,
    with loops over properties and list elements.  Each method leaves exactly the
    tables, result and number of writes that its function in UpsertSpec describes. */
module ObjectAccessor {
  import opened RealmModel
  import Spec = UpsertSpec

  class Realm {
    const schema: Schema
    var tables: Tables
    var writes: nat        // counts the writes issued; not in the original

    constructor (schema: Schema)
      ensures this.schema == schema && writes == 0
      ensures tables == seq(|schema|, t requires 0 <= t < |schema| => [])
    {
      this.schema := schema;
      tables := seq(|schema|, t requires 0 <= t < |schema| => []);
      writes := 0;
    }

    // The state after a call that started in `before`, `count` and did what o says.
    ghost predicate Did<R>(before: Tables, count: nat, o: Spec.Out<R>, res: Result<R>)
      reads this
    {
      tables == o.tables && writes == count + o.writes && res == o.res
    }

    method SetCell(a: Addr, x: Cell)
      modifies this
      ensures tables == Put(old(tables), a, x) && writes == old(writes) + 1
    {
      tables := Put(tables, a, x);
      writes := writes + 1;
    }

    method AddEmptyRow(t: nat) returns (row: nat)
      modifies this
      ensures tables == AddRow(schema, old(tables), t) && writes == old(writes) + 1
      ensures row == Size(old(tables), t)
    {
      row := Size(tables, t);
      tables := AddRow(schema, tables, t);
      writes := writes + 1;
    }

    // Object::create
    method Create(t: nat, value: Value, m: Spec.Mode, currentRow: Option<nat>) returns (res: Result<nat>)
      requires ValidSchema(schema) && t < |schema|
      modifies this
      ensures Did(old(tables), old(writes), Spec.Create(schema, old(tables), t, value, m, currentRow), res)
      decreases value, 2
    {
      var ot := schema[t];
      assert ValidType(schema, ot);
      var created, skipPrimary := false, true;
      var row: nat;
      if ot.primary.Some? {
        var key := Spec.KeyFor(ot, value);
        if key.Err? {
          return Err(key.error);
        }
        var found := FindFirst(schema, tables, t, key.value);
        if found.None? {
          created := true;
          row := AddEmptyRow(t);
          SetCell(Addr(t, row, ot.primary.value), key.value);
        } else if !m.tryUpdate {
          if m.migrating {
            row := AddEmptyRow(t);
            created := true;
            skipPrimary := false;
          } else {
            return Err(DuplicateKey);
          }
        } else {
          row := found.value;
        }
      } else if m.diff && currentRow.Some? {
        row := currentRow.value;
      } else {
        row := AddEmptyRow(t);
        created := true;
      }

      res := Populate(t, row, value, m, created, skipPrimary);
    }

    // The second half of Object::create
    method Populate(t: nat, row: nat, value: Value, m: Spec.Mode, created: bool, skipPrimary: bool) returns (res: Result<nat>)
      requires ValidSchema(schema) && t < |schema|
      modifies this
      ensures Did(old(tables), old(writes), Spec.Populate(schema, old(tables), t, row, value, m, created, skipPrimary, 0), res)
      decreases value, 1
    {
      var ot := schema[t];
      assert ValidType(schema, ot);
      ghost var T0, w0 := tables, writes;
      ghost var whole := Spec.Populate(schema, T0, t, row, value, m, created, skipPrimary, 0);
      var i := 0;
      while i < |ot.props|
        invariant i <= |ot.props| && writes >= w0
        invariant whole == Spec.Counting(writes - w0, Spec.Populate(schema, tables, t, row, value, m, created, skipPrimary, i))
      {
        var prop := ot.props[i];
        assert ValidProp(schema, prop.typ);
        if !(skipPrimary && ot.primary == Some(i)) {
          var v := Lookup(value, prop.name);
          if v.Err? {
            return Err(v.error);
          }
          if created || v.value.Some? {
            if (v.value.None? || v.value.value.Null?) && Required(prop.typ) {
              return Err(MissingValue);
            }
            if v.value.Some? {
              var o := SetPropertyValue(Addr(t, row, i), prop.typ, v.value.value, m);
              if o.Err? {
                return Err(o.error);
              }
            }
          }
        }
        i := i + 1;
      }
      return Ok(row);
    }

    // Object::set_property_value
    method SetNamedProperty(a: Addr, value: Value, m: Spec.Mode) returns (res: Result<()>)
      requires ValidSchema(schema)
      modifies this
      ensures Did(old(tables), old(writes), Spec.SetNamed(schema, old(tables), a, value, m), res)
    {
      if !Has(tables, a) || a.t >= |schema| || a.c >= |schema[a.t].props| {
        return Err(InvalidRow);
      }
      assert ValidType(schema, schema[a.t]);
      if schema[a.t].primary == Some(a.c) && !m.migrating {
        return Err(ModifyPrimaryKey);
      }
      res := SetPropertyValue(a, schema[a.t].props[a.c].typ, value, m.(diff := false));
    }

    // Object::set_property_value_impl, with ValueUpdater for what is not an array
    method SetPropertyValue(a: Addr, p: PropType, value: Value, m: Spec.Mode) returns (res: Result<()>)
      requires ValidSchema(schema) && ValidProp(schema, p)
      modifies this
      ensures Did(old(tables), old(writes), Spec.SetProp(schema, old(tables), a, p, value, m), res)
      decreases value, 5
    {
      if p.Single? && p.nullable && value.Null? {
        if !m.diff || CellAt(tables, a) != Empty {
          SetCell(a, Empty);
        }
        return Ok(());
      }
      if p.Array? {
        res := Assign(a, p.elem, value, m);
        return;
      }
      var current := CellAt(tables, a);
      var item := UnboxItem(p.elem, value, m, LinkAt(tables, a), false);
      if item.Err? {
        return Err(item.error);
      }
      if !m.diff || current != One(item.value) {
        SetCell(a, One(item.value));
      }
      return Ok(());
    }

    // CppContext::unbox for the element type, creating objects where needed
    method UnboxItem(e: Elem, value: Value, m: Spec.Mode, currentRow: Option<nat>, inList: bool) returns (res: Result<Item>)
      requires ValidSchema(schema) && (e.Object? ==> e.target < |schema|)
      modifies this
      ensures Did(old(tables), old(writes), Spec.Resolve(schema, old(tables), e, value, m, currentRow, inList), res)
      decreases value, 3
    {
      if e.Basic? {
        var s := Unbox(e.kind, value);
        return if s.Ok? then Ok(DataItem(s.value)) else Err(s.error);
      }
      if value.RowBox? {
        if (inList && value.table != e.target) || value.row >= Size(tables, e.target) {
          return Err(InvalidRow);
        }
        return Ok(Ref(value.row));
      }
      var row := Create(e.target, value, m, currentRow);
      return if row.Ok? then Ok(Ref(row.value)) else Err(row.error);
    }

    // List::assign
    method Assign(a: Addr, e: Elem, values: Value, m: Spec.Mode) returns (res: Result<()>)
      requires ValidSchema(schema) && (e.Object? ==> e.target < |schema|)
      modifies this
      ensures Did(old(tables), old(writes), Spec.Assign(schema, old(tables), a, e, values, m), res)
      decreases values, 4
    {
      if values == ListBox(a) {
        return Ok(());
      }
      if values.Null? {
        RemoveAll(a);
        return Ok(());
      }
      if m.diff {
        if !values.Vec? {
          return Err(BadCast);
        }
        var sz := |ItemsAt(tables, a)|;
        res := Enumerate(a, e, values, sz, m);
        if res.Err? {
          return;
        }
        res := RemoveTail(a, |values.elems|, sz);
      } else {
        RemoveAll(a);
        if !values.Vec? {
          return Err(BadCast);
        }
        res := Enumerate(a, e, values, 0, m);
      }
    }

    // The loop of List::assign that drops what the input did not reach
    method RemoveTail(a: Addr, index: nat, size: nat) returns (res: Result<()>)
      modifies this
      ensures Did(old(tables), old(writes), Spec.RemoveTail(old(tables), a, index, size), res)
    {
      ghost var T0, w0 := tables, writes;
      ghost var whole := Spec.RemoveTail(T0, a, index, size);
      var sz: nat := size;
      while index < sz
        invariant writes >= w0 && whole == Spec.Counting(writes - w0, Spec.RemoveTail(tables, a, index, sz))
      {
        sz := sz - 1;
        var items := ItemsAt(tables, a);
        if sz >= |items| {
          return Err(OutOfBounds);
        }
        SetCell(a, Many(items[..sz] + items[sz + 1..]));
      }
      return Ok(());
    }

    // List::remove_all
    method RemoveAll(a: Addr)
      modifies this
      ensures tables == Put(old(tables), a, Many([])) && writes == old(writes) + |ItemsAt(old(tables), a)|
    {
      writes := writes + |ItemsAt(tables, a)|;
      tables := Put(tables, a, Many([]));
    }

    // enumerate_list with the body that List::assign passes to it
    method Enumerate(a: Addr, e: Elem, values: Value, sz: nat, m: Spec.Mode) returns (res: Result<()>)
      requires ValidSchema(schema) && (e.Object? ==> e.target < |schema|) && values.Vec?
      modifies this
      ensures Did(old(tables), old(writes), Spec.AssignFrom(schema, old(tables), a, e, values, 0, sz, m), res)
      decreases values, 0
    {
      ghost var T0, w0 := tables, writes;
      ghost var whole := Spec.AssignFrom(schema, T0, a, e, values, 0, sz, m);
      var index := 0;
      while index < |values.elems|
        invariant index <= |values.elems| && writes >= w0
        invariant whole == Spec.Counting(writes - w0, Spec.AssignFrom(schema, tables, a, e, values, index, sz, m))
      {
        if index < sz {
          res := SetIfDifferent(a, e, values.elems[index], index, m);
        } else {
          res := Add(a, e, values.elems[index], m);
        }
        if res.Err? {
          return;
        }
        index := index + 1;
      }
      return Ok(());
    }

    // List::set_if_different
    method SetIfDifferent(a: Addr, e: Elem, value: Value, index: nat, m: Spec.Mode) returns (res: Result<()>)
      requires ValidSchema(schema) && (e.Object? ==> e.target < |schema|)
      modifies this
      ensures Did(old(tables), old(writes), Spec.SetIfDifferent(schema, old(tables), a, e, value, index, m), res)
      decreases value, 4
    {
      var items := ItemsAt(tables, a);
      if index >= |items| {
        return Err(OutOfBounds);
      }
      var oldValue := items[index];
      var current := if oldValue.Ref? then Some(oldValue.row) else None;
      var newValue := UnboxItem(e, value, m.(diff := true), current, true);
      if newValue.Err? {
        return Err(newValue.error);
      }
      if oldValue != newValue.value {
        var now := ItemsAt(tables, a);
        if index >= |now| {
          return Err(OutOfBounds);
        }
        SetCell(a, Many(now[index := newValue.value]));
      }
      return Ok(());
    }

    // List::add
    method Add(a: Addr, e: Elem, value: Value, m: Spec.Mode) returns (res: Result<()>)
      requires ValidSchema(schema) && (e.Object? ==> e.target < |schema|)
      modifies this
      ensures Did(old(tables), old(writes), Spec.Add(schema, old(tables), a, e, value, m), res)
      decreases value, 4
    {
      var item := UnboxItem(e, value, m.(diff := false), None, true);
      if item.Err? {
        return Err(item.error);
      }
      SetCell(a, Many(ItemsAt(tables, a) + [item.value]));
      return Ok(());
    }
  }
}
