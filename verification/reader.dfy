/** The read side of `DataService.Select`: every row the reader yields becomes
    a fresh object whose properties are read from the columns of their mapped
    names, and any failure turns the whole result into `null`. Also the
    insert-then-read round trip. */
module Reader {
  import opened Wrappers
  import opened Metadata
  import opened Builders
  import opened BuilderSpec
  import BuilderProperties

  /** The properties from index `i` on of one new object, each set from the row's
      column of its mapped name; `Convert.ChangeType` is the identity here. The
      first undecorated property or missing column throws. */
  function MaterializeFrom(e: Entity, row: Row, i: nat): (r: Result<seq<Option<Value>>, Error>)
    requires i <= |e.fields|
    ensures r.Success? <==>
      forall k :: i <= k < |e.fields| ==> Decorated(e.fields[k]) && ColumnName(e.fields[k]) in row
    ensures r.Success? ==>
      (|r.value| == |e.fields| - i &&
       forall k :: i <= k < |e.fields| ==> r.value[k - i] == Some(row[ColumnName(e.fields[k])]))
    ensures r.Failure? ==> r.error == InvalidDataModel || r.error == MissingColumn
    ensures r.Failure? && (forall k :: i <= k < |e.fields| ==> Decorated(e.fields[k])) ==> r.error == MissingColumn
    decreases |e.fields| - i
  {
    if i == |e.fields| then Success([])
    else if !Decorated(e.fields[i]) then Failure(InvalidDataModel)
    else if ColumnName(e.fields[i]) !in row then Failure(MissingColumn)
    else
      var rest :- MaterializeFrom(e, row, i + 1);
      Success([Some(row[ColumnName(e.fields[i])])] + rest)
  }

  /** One object built from one row: every property is non-null and holds the
      row's value under the property's column name. */
  function Materialize(e: Entity, row: Row): (r: Result<Instance, Error>)
    ensures r.Success? <==> forall k :: 0 <= k < |e.fields| ==> Decorated(e.fields[k]) && ColumnName(e.fields[k]) in row
    ensures r.Success? ==> Fits(e, r.value) && AllPresent(r.value)
    ensures r.Success? ==> forall k :: 0 <= k < |e.fields| ==> r.value[k] == Some(row[ColumnName(e.fields[k])])
    ensures r.Failure? ==> r.error == InvalidDataModel || r.error == MissingColumn
  {
    var r := MaterializeFrom(e, row, 0);
    if r.Success? then
      assert forall k :: 0 <= k < |e.fields| ==> r.value[k] == Some(row[ColumnName(e.fields[k])]);
      r
    else r
  }

  /** The `while (reader.Read())` loop: all rows become objects, or the first
      failure ends the whole loop. */
  function MaterializeAll(e: Entity, rows: seq<Row>): (r: Result<seq<Instance>, Error>)
    ensures r.Success? <==> forall j :: 0 <= j < |rows| ==> Materialize(e, rows[j]).Success?
    ensures r.Success? ==>
      (|r.value| == |rows| &&
       forall j :: 0 <= j < |rows| ==> Materialize(e, rows[j]) == Success(r.value[j]))
    decreases |rows|
  {
    if |rows| == 0 then Success([])
    else
      var first :- Materialize(e, rows[0]);
      var rest :- MaterializeAll(e, rows[1..]);
      Success([first] + rest)
  }

  /** `DataService.Select`: build the statement, hand it to the store (`query`
      stands for the reader over the executed command), and materialize every
      returned row. Any exception makes the result `null`; there is never a
      partial list. */
  function RunSelect(e: Entity, model: Option<Instance>, query: Statement -> seq<Row>): (r: Option<seq<Instance>>)
    requires model.Some? ==> Fits(e, model.value)
    ensures r.Some? <==>
      Select(e, model).Success? &&
      forall j :: 0 <= j < |query(Select(e, model).value)| ==> Materialize(e, query(Select(e, model).value)[j]).Success?
    ensures r.Some? ==>
      var rows := query(Select(e, model).value);
      |r.value| == |rows| &&
      forall j, k :: 0 <= j < |rows| && 0 <= k < |e.fields| ==>
        && |r.value[j]| == |e.fields|
        && Decorated(e.fields[k]) && ColumnName(e.fields[k]) in rows[j]
        && r.value[j][k] == Some(rows[j][ColumnName(e.fields[k])])
  {
    match Select(e, model)
    case Failure(_) => None
    case Success(statement) =>
      match MaterializeAll(e, query(statement))
      case Failure(_) => None
      case Success(objects) => Some(objects)
  }

  // ---------------------------------------------------------------------
  // Insert, then read back

  /** The value the executed command binds to placeholder `name`. */
  function Bound(params: seq<Param>, name: string): Option<Value>
    decreases |params|
  {
    if |params| == 0 then None
    else if params[0].name == name then Some(params[0].value)
    else Bound(params[1..], name)
  }

  /** The row an executed `insert into T (columns) values (placeholders)` stores:
      each column holds the value bound to the placeholder in the same position;
      `None` when some placeholder is unbound. */
  function StoredRow(columns: seq<string>, placeholders: seq<string>, params: seq<Param>): Option<Row>
    requires |columns| == |placeholders|
    decreases |columns|
  {
    if |columns| == 0 then Some(map[])
    else
      match Bound(params, placeholders[0])
      case None => None
      case Some(v) =>
        match StoredRow(columns[1..], placeholders[1..], params)
        case None => None
        case Some(row) => Some(row[columns[0] := v])
  }

  lemma {:induction false} BoundFinds(params: seq<Param>, k: nat)
    requires DistinctNames(params) && k < |params|
    ensures Bound(params, params[k].name) == Some(params[k].value)
    decreases |params|
  {
    if k > 0 {
      assert params[0].name != params[k].name;
      assert params[1..][k - 1] == params[k];
      BoundFinds(params[1..], k - 1);
    }
  }

  lemma {:induction false} StoredRowHolds(columns: seq<string>, placeholders: seq<string>, params: seq<Param>)
    requires |columns| == |placeholders|
    requires forall a, b :: 0 <= a < b < |columns| ==> columns[a] != columns[b]
    requires forall k :: 0 <= k < |placeholders| ==> Bound(params, placeholders[k]).Some?
    ensures StoredRow(columns, placeholders, params).Some?
    ensures forall k :: 0 <= k < |columns| ==>
      columns[k] in StoredRow(columns, placeholders, params).value &&
      StoredRow(columns, placeholders, params).value[columns[k]] == Bound(params, placeholders[k]).value
    decreases |columns|
  {
    if |columns| > 0 {
      var cs, hs := columns[1..], placeholders[1..];
      assert forall k :: 0 <= k < |hs| ==> hs[k] == placeholders[k + 1];
      StoredRowHolds(cs, hs, params);
      var row := StoredRow(cs, hs, params).value;
      forall k | 0 < k < |columns|
        ensures columns[k] in row && row[columns[k]] == Bound(params, placeholders[k]).value
      {
        assert columns[k] == cs[k - 1];
      }
    }
  }

  /** Reading back the row an insert stores yields the inserted object: every
      property holds exactly the value the object had. */
  lemma InsertThenRead(e: Entity, t: Instance)
    requires WellFormed(e) && Fits(e, t) && AllPresent(t)
    ensures Insert(e, Some(t)).Success?
    ensures Insert(e, Some(t)).value.sql ==
      "insert into " + e.table.value + " (" + Join(",", ColumnNames(e)) + ") values ("
        + Join(",", Placeholders(|t|)) + ");"
    ensures StoredRow(ColumnNames(e), Placeholders(|t|), Insert(e, Some(t)).value.params).Some?
    ensures Materialize(e, StoredRow(ColumnNames(e), Placeholders(|t|), Insert(e, Some(t)).value.params).value)
            == Success(t)
  {
    InsertMeaning(e, Some(t));
    BuilderProperties.PlaceholdersDistinct(e, Some(t));
    var ps := Insert(e, Some(t)).value.params;
    var names, holders := ColumnNames(e), Placeholders(|t|);
    assert PresentAt(t, Indices(|t|));
    assert ps == Bindings(t, Indices(|t|));
    forall k | 0 <= k < |holders|
      ensures Bound(ps, holders[k]) == Some(t[k].value)
    {
      assert ps[k] == Param(holders[k], t[k].value);
      BoundFinds(ps, k);
    }
    StoredRowHolds(names, holders, ps);
    var row := StoredRow(names, holders, ps).value;
    var r := Materialize(e, row);
    assert forall k :: 0 <= k < |e.fields| ==> names[k] == ColumnName(e.fields[k]) && names[k] in row;
    assert r.Success?;
    forall k | 0 <= k < |t|
      ensures r.value[k] == t[k]
    {
      assert names[k] == ColumnName(e.fields[k]);
      assert row[names[k]] == Bound(ps, holders[k]).value == t[k].value;
    }
    assert r.value == t;
  }
}
