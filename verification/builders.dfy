/** The query construction of `DataService.Select`, `Insert`, `Update` and
    `Delete`: from a class descriptor and a template object to SQL text plus
    the named parameters bound to it. Each builder follows its C# loop: the
    same branches, the same literal text fragments, the same exceptions. */
module Builders {
  import opened Wrappers
  import opened Metadata
  import Decimal

  /** The exceptions the builders throw, by cause. */
  datatype Error =
    | NullModel         // `Insert` / `Delete` handed a null object
    | InvalidDataModel  // no `DataModelAttribute`, or a non-null property without `ColumnAttribute`
    | NullValue         // `Insert` met a null property
    | NoPrimaryKey      // `Update` / `Delete` on a class without a key column
    | MissingColumn     // the reader has no column of the mapped name

  /** One entry of `parameterDict`: a placeholder and the property value bound to it. */
  datatype Param = Param(name: string, value: Value)

  /** `command.CommandText` together with the parameters added to the command. */
  datatype Statement = Statement(sql: string, params: seq<Param>)

  /** The placeholder of the property at index `i`; the mapper writes `@` before a
      fresh GUID here, the model uses the property's index instead. */
  function Placeholder(i: nat): string {
    "@p" + Decimal.Show(i)
  }

  /** The predicate or assignment `{FieldName} = @{paramName}`. */
  function Equality(column: string, i: nat): string {
    column + " = " + Placeholder(i)
  }

  /** One `foreach` over the properties from index `i` on that appends
      `column = @p` for every non-null property in scope: `lead` before the
      first one (when `trigger` is still false), `sep` before each later one.
      A non-null property in scope without a column attribute throws. */
  function AppendEqualities(e: Entity, t: Instance, s: Scope, lead: string, sep: string,
                            i: nat, trigger: bool, acc: Statement): Result<Statement, Error>
    requires Fits(e, t) && i <= |t|
    decreases |t| - i
  {
    if i == |t| then Success(acc)
    else if !InScope(e.fields[i], s) || t[i].None? then
      AppendEqualities(e, t, s, lead, sep, i + 1, trigger, acc)
    else if !Decorated(e.fields[i]) then Failure(InvalidDataModel)
    else
      var glue := if trigger then sep else lead;
      var sql := acc.sql + glue + Equality(ColumnName(e.fields[i]), i);
      var params := acc.params + [Param(Placeholder(i), t[i].value)];
      AppendEqualities(e, t, s, lead, sep, i + 1, true, Statement(sql, params))
  }

  /** The column list, the placeholder list and the parameters of an insert. */
  datatype InsertParts = InsertParts(columns: string, values: string, params: seq<Param>)

  /** The `foreach` of `Insert` from index `i` on: every property must be non-null
      and decorated; `","` separates both lists. */
  function AppendColumns(e: Entity, t: Instance, i: nat, trigger: bool, acc: InsertParts): Result<InsertParts, Error>
    requires Fits(e, t) && i <= |t|
    decreases |t| - i
  {
    if i == |t| then Success(acc)
    else if t[i].None? then Failure(NullValue)
    else if !Decorated(e.fields[i]) then Failure(InvalidDataModel)
    else
      var glue := if trigger then "," else "";
      var next := InsertParts(acc.columns + glue + ColumnName(e.fields[i]),
                              acc.values + glue + Placeholder(i),
                              acc.params + [Param(Placeholder(i), t[i].value)]);
      AppendColumns(e, t, i + 1, true, next)
  }

  /** The statement `Select` runs for the template `model` (`None` is a null template). */
  function Select(e: Entity, model: Option<Instance>): Result<Statement, Error>
    requires model.Some? ==> Fits(e, model.value)
  {
    if e.table.None? then Failure(InvalidDataModel)
    else
      var head := Statement("select * from " + e.table.value, []);
      var body :- if model.None? then Success(head)
                  else AppendEqualities(e, model.value, Every, " where ", " and ", 0, false, head);
      Success(Statement(body.sql + ";", body.params))
  }

  /** The statement `Insert` runs for `model`. */
  function Insert(e: Entity, model: Option<Instance>): Result<Statement, Error>
    requires model.Some? ==> Fits(e, model.value)
  {
    if model.None? then Failure(NullModel)
    else if e.table.None? then Failure(InvalidDataModel)
    else
      var parts :- AppendColumns(e, model.value, 0, false, InsertParts("", "", []));
      var sql := "insert into " + e.table.value + " (" + parts.columns + ") values (" + parts.values + ");";
      Success(Statement(sql, parts.params))
  }

  /** The statement `Update` runs for `model`: first the SET list over the
      non-key properties, then the WHERE clause over the key properties. A null
      model skips both loops. */
  function Update(e: Entity, model: Option<Instance>): Result<Statement, Error>
    requires model.Some? ==> Fits(e, model.value)
  {
    if e.table.None? then Failure(InvalidDataModel)
    else if !HasKey(e) then Failure(NoPrimaryKey)
    else
      var head := Statement("update " + e.table.value + " set ", []);
      var body :- if model.None? then Success(head)
                  else
                    var assignments :- AppendEqualities(e, model.value, NonKeys, "", ", ", 0, false, head);
                    AppendEqualities(e, model.value, KeysOnly, " where ", " and ", 0, false, assignments);
      Success(Statement(body.sql + ";", body.params))
  }

  /** The statement `Delete` runs for `model`; it has no trailing `;`. */
  function Delete(e: Entity, model: Option<Instance>): Result<Statement, Error>
    requires model.Some? ==> Fits(e, model.value)
  {
    if model.None? then Failure(NullModel)
    else if e.table.None? then Failure(InvalidDataModel)
    else if !HasKey(e) then Failure(NoPrimaryKey)
    else AppendEqualities(e, model.value, KeysOnly, " where ", " and ", 0, false,
                          Statement("delete from " + e.table.value, []))
  }
}
