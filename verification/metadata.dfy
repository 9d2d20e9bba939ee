/** The entity descriptor that `DataModelAttribute` and `ColumnAttribute` attach
    to an entity class, and the templates (instances) the mapper is handed. */
module Metadata {
  import opened Wrappers

  /** The range of a C# `long`. */
  newtype Int64 = x: int | -0x8000_0000_0000_0000 <= x < 0x8000_0000_0000_0000

  /** A non-null property value: the entities declare `string?` and `long?` properties. */
  datatype Value = Text(s: string) | Long(n: Int64)

  /** The underlying declared type of a property. */
  datatype Kind = TextKind | LongKind

  function KindOf(v: Value): Kind {
    match v
    case Text(_) => TextKind
    case Long(_) => LongKind
  }

  /** What a `ColumnAttribute` records: the physical column name and the key flag. */
  datatype Column = Column(name: string, primaryKey: bool)

  /** One public property of an entity class, in declaration order; `column` is
      `None` when the property carries no `ColumnAttribute`. */
  datatype Field = Field(kind: Kind, column: Option<Column>)

  /** An entity class: its `DataModelAttribute` table name (if any) and its properties. */
  datatype Entity = Entity(table: Option<string>, fields: seq<Field>)

  /** An object of an entity class: one slot per property, `None` where the property is null. */
  type Instance = seq<Option<Value>>

  /** A result row as the reader exposes it: column name to value. */
  type Row = map<string, Value>

  predicate Decorated(f: Field) {
    f.column.Some?
  }

  /** `GetCustomAttribute<ColumnAttribute>()?.PrimaryKey == true`: undecorated properties are not keys. */
  predicate IsKey(f: Field) {
    f.column.Some? && f.column.value.primaryKey
  }

  function ColumnName(f: Field): string
    requires Decorated(f)
  {
    f.column.value.name
  }

  /** Some property of the class is a primary key. */
  predicate HasKey(e: Entity) {
    exists i :: 0 <= i < |e.fields| && IsKey(e.fields[i])
  }

  /** `t` is an object of the class `e`. */
  predicate Fits(e: Entity, t: Instance) {
    |t| == |e.fields|
  }

  /** Every non-null slot holds a value of the property's declared type. */
  predicate Conforms(e: Entity, t: Instance) {
    Fits(e, t) && forall i :: 0 <= i < |t| && t[i].Some? ==> KindOf(t[i].value) == e.fields[i].kind
  }

  /** Every slot is non-null. */
  predicate AllPresent(t: Instance) {
    forall i :: 0 <= i < |t| ==> t[i].Some?
  }

  /** Every slot is null, as after the parameterless constructor. */
  predicate AllAbsent(t: Instance) {
    forall i :: 0 <= i < |t| ==> t[i].None?
  }

  predicate AllDecorated(e: Entity) {
    forall i :: 0 <= i < |e.fields| ==> Decorated(e.fields[i])
  }

  /** A class the mapper fully understands: a table, a column on every property,
      and no column name used twice. */
  predicate WellFormed(e: Entity) {
    && e.table.Some?
    && AllDecorated(e)
    && forall i, j :: 0 <= i < j < |e.fields| ==> ColumnName(e.fields[i]) != ColumnName(e.fields[j])
  }

  /** Which properties one loop of the mapper walks over: all of them (Select),
      only the keys (the WHERE of Update and Delete), or all but the keys (Update's SET). */
  datatype Scope = Every | KeysOnly | NonKeys

  predicate InScope(f: Field, s: Scope) {
    match s
    case Every => true
    case KeysOnly => IsKey(f)
    case NonKeys => !IsKey(f)
  }

  /** Same null/non-null pattern: the two objects differ at most in their values. */
  predicate SamePresence(t1: Instance, t2: Instance) {
    |t1| == |t2| && forall i :: 0 <= i < |t1| ==> t1[i].Some? == t2[i].Some?
  }

  /** The indices, from `i` on, of the non-null properties in scope `s`. They are
      exactly those indices, each once, in declaration order. */
  function Chosen(e: Entity, t: Instance, s: Scope, i: nat): (r: seq<nat>)
    requires Fits(e, t) && i <= |t|
    ensures forall k :: k in r ==> i <= k < |t| && InScope(e.fields[k], s) && t[k].Some?
    ensures forall k :: i <= k < |t| && InScope(e.fields[k], s) && t[k].Some? ==> k in r
    ensures forall a :: 0 <= a < |r| ==> i <= r[a] < |t| && InScope(e.fields[r[a]], s) && t[r[a]].Some?
    ensures forall a, b :: 0 <= a < b < |r| ==> r[a] < r[b]
    decreases |t| - i
  {
    if i == |t| then []
    else if InScope(e.fields[i], s) && t[i].Some? then
      var rest := Chosen(e, t, s, i + 1);
      assert forall b :: 0 <= b < |rest| ==> rest[b] in rest;
      [i] + rest
    else Chosen(e, t, s, i + 1)
  }

  /** Which properties are chosen depends only on which properties in scope are
      non-null, never on their values nor on properties out of scope. */
  lemma {:induction false} ChosenIgnoresValues(e: Entity, t1: Instance, t2: Instance, s: Scope, i: nat)
    requires Fits(e, t1) && Fits(e, t2) && i <= |t1|
    requires forall k {:trigger t1[k]} :: 0 <= k < |t1| && InScope(e.fields[k], s) ==> t1[k].Some? == t2[k].Some?
    ensures Chosen(e, t1, s, i) == Chosen(e, t2, s, i)
    decreases |t1| - i
  {
    if i < |t1| {
      ChosenIgnoresValues(e, t1, t2, s, i + 1);
      if InScope(e.fields[i], s) && t1[i].Some? {
        assert t2[i].Some?;
      } else {
        assert !(InScope(e.fields[i], s) && t2[i].Some?);
      }
    }
  }

  /** With no non-null property in scope from `i` on, nothing is chosen. */
  lemma {:induction false} NothingChosen(e: Entity, t: Instance, s: Scope, i: nat)
    requires Fits(e, t) && i <= |t|
    requires forall k :: i <= k < |t| && t[k].Some? ==> !InScope(e.fields[k], s)
    ensures Chosen(e, t, s, i) == []
    decreases |t| - i
  {
    if i < |t| {
      NothingChosen(e, t, s, i + 1);
    }
  }

  /** The indices `lo`, `lo + 1`, ..., `hi - 1`. */
  function Range(lo: nat, hi: nat): seq<nat>
    decreases hi - lo
  {
    if lo >= hi then [] else [lo] + Range(lo + 1, hi)
  }

  /** With every property from `i` on in scope and non-null, all of them are
      chosen, in order. */
  lemma {:induction false} EverythingChosen(e: Entity, t: Instance, s: Scope, i: nat)
    requires Fits(e, t) && i <= |t|
    requires forall k :: i <= k < |t| ==> InScope(e.fields[k], s) && t[k].Some?
    ensures Chosen(e, t, s, i) == Range(i, |t|)
    decreases |t| - i
  {
    if i < |t| {
      EverythingChosen(e, t, s, i + 1);
    }
  }
}
