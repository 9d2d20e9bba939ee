/** Reference definitions of the statements the four builders produce, stated
    with a plain separator join instead of the mapper's `trigger` flag, the
    lemmas that the builders meet them, and the properties that follow: which
    properties become predicates or assignments, that values reach only the
    parameter list, and that no placeholder is used twice. */
module BuilderSpec {
  import opened Wrappers
  import opened Metadata
  import opened Builders
  import Decimal

  /** `xs` with `sep` between consecutive items. */
  function Join(sep: string, xs: seq<string>): string
    decreases |xs|
  {
    if |xs| == 0 then "" else if |xs| == 1 then xs[0] else xs[0] + sep + Join(sep, xs[1..])
  }

  /** A WHERE clause ANDing `preds`, or no clause at all when there are none. */
  function WhereClause(preds: seq<string>): string {
    if |preds| == 0 then "" else " where " + Join(" and ", preds)
  }

  /** Every index in `ch` names a decorated property of `e`. */
  predicate DecoratedAt(e: Entity, ch: seq<nat>) {
    forall a :: 0 <= a < |ch| ==> ch[a] < |e.fields| && Decorated(e.fields[ch[a]])
  }

  /** Every index in `ch` names a non-null slot of `t`. */
  predicate PresentAt(t: Instance, ch: seq<nat>) {
    forall a :: 0 <= a < |ch| ==> ch[a] < |t| && t[ch[a]].Some?
  }

  /** `column = @p` for each property listed in `ch`, in that order. */
  function Equalities(e: Entity, ch: seq<nat>): seq<string>
    requires DecoratedAt(e, ch)
  {
    seq(|ch|, k requires 0 <= k < |ch| => Equality(ColumnName(e.fields[ch[k]]), ch[k]))
  }

  /** The parameter of each property listed in `ch`, holding that property's value. */
  function Bindings(t: Instance, ch: seq<nat>): seq<Param>
    requires PresentAt(t, ch)
  {
    seq(|ch|, k requires 0 <= k < |ch| => Param(Placeholder(ch[k]), t[ch[k]].value))
  }

  function Indices(n: nat): (r: seq<nat>)
    ensures |r| == n && forall k :: 0 <= k < n ==> r[k] == k
  {
    seq(n, k => k)
  }

  /** The column names of every property, in declaration order. */
  function ColumnNames(e: Entity): seq<string>
    requires AllDecorated(e)
  {
    seq(|e.fields|, k requires 0 <= k < |e.fields| => ColumnName(e.fields[k]))
  }

  function Placeholders(n: nat): seq<string> {
    seq(n, k requires 0 <= k < n => Placeholder(k))
  }

  /** No two parameters share a name, so no `parameterDict.Add` can throw. */
  predicate DistinctNames(ps: seq<Param>) {
    forall a, b :: 0 <= a < b < |ps| ==> ps[a].name != ps[b].name
  }

  /** The same placeholders in the same order, whatever the values. */
  predicate SameNames(ps1: seq<Param>, ps2: seq<Param>) {
    |ps1| == |ps2| && forall k :: 0 <= k < |ps1| ==> ps1[k].name == ps2[k].name
  }

  /** Two builder outcomes that differ at most in the parameter values. */
  predicate SameShape(r1: Result<Statement, Error>, r2: Result<Statement, Error>) {
    && r1.Success? == r2.Success?
    && (r1.Failure? ==> r1.error == r2.error)
    && (r1.Success? ==> r1.value.sql == r2.value.sql && SameNames(r1.value.params, r2.value.params))
  }

  // ---------------------------------------------------------------------
  // Separator bookkeeping

  /** `sep` before each item: the text a loop appends once `trigger` is set. */
  function Prefixed(sep: string, xs: seq<string>): string
    decreases |xs|
  {
    if |xs| == 0 then "" else sep + xs[0] + Prefixed(sep, xs[1..])
  }

  /** What a loop with `lead` and `sep` appends for the items `xs`. */
  function Glued(lead: string, sep: string, trigger: bool, xs: seq<string>): string {
    if trigger then Prefixed(sep, xs) else if |xs| == 0 then "" else lead + Join(sep, xs)
  }

  lemma {:induction false} JoinCons(sep: string, x: string, xs: seq<string>)
    ensures Join(sep, [x] + xs) == x + Prefixed(sep, xs)
    decreases |xs|
  {
    if |xs| == 0 {
      assert [x] + xs == [x];
    } else {
      assert ([x] + xs)[1..] == xs;
      assert [xs[0]] + xs[1..] == xs;
      JoinCons(sep, xs[0], xs[1..]);
    }
  }

  // ---------------------------------------------------------------------
  // The loops meet the reference definitions

  lemma GluedStep(lead: string, sep: string, trigger: bool, x: string, xs: seq<string>)
    ensures (if trigger then sep else lead) + x + Prefixed(sep, xs) == Glued(lead, sep, trigger, [x] + xs)
  {
    assert ([x] + xs)[1..] == xs;
    JoinCons(sep, x, xs);
  }

  lemma EqualitiesCons(e: Entity, i: nat, rest: seq<nat>)
    requires i < |e.fields| && Decorated(e.fields[i]) && DecoratedAt(e, rest)
    ensures DecoratedAt(e, [i] + rest)
    ensures Equalities(e, [i] + rest) == [Equality(ColumnName(e.fields[i]), i)] + Equalities(e, rest)
  {
    assert forall a :: 0 < a <= |rest| ==> ([i] + rest)[a] == rest[a - 1];
  }

  lemma BindingsCons(t: Instance, i: nat, rest: seq<nat>)
    requires i < |t| && t[i].Some? && PresentAt(t, rest)
    ensures PresentAt(t, [i] + rest)
    ensures Bindings(t, [i] + rest) == [Param(Placeholder(i), t[i].value)] + Bindings(t, rest)
  {
    assert forall a :: 0 < a <= |rest| ==> ([i] + rest)[a] == rest[a - 1];
  }

  /** The statement `AppendEqualities` should reach from `acc` over the chosen indices `ch`. */
  function Expected(e: Entity, t: Instance, lead: string, sep: string, trigger: bool, acc: Statement,
                    ch: seq<nat>): Result<Statement, Error>
    requires PresentAt(t, ch)
  {
    if DecoratedAt(e, ch)
    then Success(Statement(acc.sql + Glued(lead, sep, trigger, Equalities(e, ch)), acc.params + Bindings(t, ch)))
    else Failure(InvalidDataModel)
  }

  /** One chosen, decorated property: the outcome from `acc` over `[i] + rest` is
      the outcome from the extended accumulator over `rest`. */
  lemma ExpectedStep(e: Entity, t: Instance, lead: string, sep: string, trigger: bool, acc: Statement,
                     i: nat, rest: seq<nat>)
    requires i < |e.fields| && i < |t| && Decorated(e.fields[i]) && t[i].Some? && PresentAt(t, rest)
    ensures PresentAt(t, [i] + rest)
    ensures var next := Statement(acc.sql + (if trigger then sep else lead) + Equality(ColumnName(e.fields[i]), i),
                                  acc.params + [Param(Placeholder(i), t[i].value)]);
      Expected(e, t, lead, sep, trigger, acc, [i] + rest) == Expected(e, t, lead, sep, true, next, rest)
  {
    var glue := if trigger then sep else lead;
    var eq := Equality(ColumnName(e.fields[i]), i);
    var next := Statement(acc.sql + glue + eq, acc.params + [Param(Placeholder(i), t[i].value)]);
    BindingsCons(t, i, rest);
    assert Bindings(t, [i] + rest) == [Param(Placeholder(i), t[i].value)] + Bindings(t, rest);
    assert next.params + Bindings(t, rest) == acc.params + Bindings(t, [i] + rest);
    if DecoratedAt(e, rest) {
      var es := Equalities(e, rest);
      EqualitiesCons(e, i, rest);
      GluedStep(lead, sep, trigger, eq, es);
      assert next.sql + Prefixed(sep, es) == acc.sql + Glued(lead, sep, trigger, Equalities(e, [i] + rest));
    } else {
      assert !DecoratedAt(e, [i] + rest) by {
        var a :| 0 <= a < |rest| && !(rest[a] < |e.fields| && Decorated(e.fields[rest[a]]));
        assert ([i] + rest)[a + 1] == rest[a];
      }
    }
  }

  /** An undecorated property at the head of the list makes the loop throw. */
  lemma ExpectedUndecorated(e: Entity, t: Instance, lead: string, sep: string, trigger: bool, acc: Statement,
                            i: nat, rest: seq<nat>)
    requires i < |e.fields| && !Decorated(e.fields[i]) && PresentAt(t, [i] + rest)
    ensures Expected(e, t, lead, sep, trigger, acc, [i] + rest) == Failure(InvalidDataModel)
  {
    assert ([i] + rest)[0] == i;
  }

  lemma ExpectedEmpty(e: Entity, t: Instance, lead: string, sep: string, trigger: bool, acc: Statement)
    ensures PresentAt(t, [])
    ensures Expected(e, t, lead, sep, trigger, acc, []) == Success(acc)
  {
    assert Equalities(e, []) == [] && Bindings(t, []) == [];
    assert Glued(lead, sep, trigger, []) == "";
    assert acc.sql + "" == acc.sql && acc.params + [] == acc.params;
  }

  /** The `trigger`-flag loop appends exactly the glued equalities of the chosen
      properties and binds exactly their values, or throws when one of them has
      no column attribute. */
  lemma {:induction false} AppendEqualitiesMeaning(e: Entity, t: Instance, s: Scope, lead: string, sep: string,
                                                   i: nat, trigger: bool, acc: Statement)
    requires Fits(e, t) && i <= |t|
    ensures AppendEqualities(e, t, s, lead, sep, i, trigger, acc) ==
            Expected(e, t, lead, sep, trigger, acc, Chosen(e, t, s, i))
    decreases |t| - i, 1
  {
    if i == |t| {
      EmptyStep(e, t, s, lead, sep, trigger, acc);
    } else if !InScope(e.fields[i], s) || t[i].None? {
      SkipCase(e, t, s, lead, sep, i, trigger, acc);
    } else if !Decorated(e.fields[i]) {
      UndecoratedStep(e, t, s, lead, sep, i, trigger, acc);
    } else {
      TakeCase(e, t, s, lead, sep, i, trigger, acc);
    }
  }

  /** The induction step over a property the loop skips. */
  lemma {:induction false} SkipCase(e: Entity, t: Instance, s: Scope, lead: string, sep: string,
                                    i: nat, trigger: bool, acc: Statement)
    requires Fits(e, t) && i < |t| && (!InScope(e.fields[i], s) || t[i].None?)
    ensures AppendEqualities(e, t, s, lead, sep, i, trigger, acc) ==
            Expected(e, t, lead, sep, trigger, acc, Chosen(e, t, s, i))
    decreases |t| - i, 0
  {
    AppendEqualitiesMeaning(e, t, s, lead, sep, i + 1, trigger, acc);
    SkipStep(e, t, s, lead, sep, i, trigger, acc);
  }

  /** The accumulator after the loop has written property `i`. */
  function Extended(e: Entity, t: Instance, lead: string, sep: string, i: nat, trigger: bool, acc: Statement): Statement
    requires i < |e.fields| && i < |t| && Decorated(e.fields[i]) && t[i].Some?
  {
    Statement(acc.sql + (if trigger then sep else lead) + Equality(ColumnName(e.fields[i]), i),
              acc.params + [Param(Placeholder(i), t[i].value)])
  }

  /** The induction step over a chosen, decorated property. */
  lemma {:induction false} TakeCase(e: Entity, t: Instance, s: Scope, lead: string, sep: string,
                                    i: nat, trigger: bool, acc: Statement)
    requires Fits(e, t) && i < |t| && InScope(e.fields[i], s) && t[i].Some? && Decorated(e.fields[i])
    ensures AppendEqualities(e, t, s, lead, sep, i, trigger, acc) ==
            Expected(e, t, lead, sep, trigger, acc, Chosen(e, t, s, i))
    decreases |t| - i, 0
  {
    var next := Extended(e, t, lead, sep, i, trigger, acc);
    AppendEqualitiesMeaning(e, t, s, lead, sep, i + 1, true, next);
    TakeStep(e, t, s, lead, sep, i, trigger, acc, next);
  }

  /** At the end of the properties the loop returns its accumulator, as its
      reference does for an empty choice. */
  lemma EmptyStep(e: Entity, t: Instance, s: Scope, lead: string, sep: string, trigger: bool, acc: Statement)
    requires Fits(e, t)
    ensures AppendEqualities(e, t, s, lead, sep, |t|, trigger, acc) ==
            Expected(e, t, lead, sep, trigger, acc, Chosen(e, t, s, |t|))
  {
    ExpectedEmpty(e, t, lead, sep, trigger, acc);
  }

  /** A property the loop skips leaves both the loop and its reference unchanged. */
  lemma SkipStep(e: Entity, t: Instance, s: Scope, lead: string, sep: string,
                 i: nat, trigger: bool, acc: Statement)
    requires Fits(e, t) && i < |t| && (!InScope(e.fields[i], s) || t[i].None?)
    requires AppendEqualities(e, t, s, lead, sep, i + 1, trigger, acc) ==
             Expected(e, t, lead, sep, trigger, acc, Chosen(e, t, s, i + 1))
    ensures AppendEqualities(e, t, s, lead, sep, i, trigger, acc) ==
            Expected(e, t, lead, sep, trigger, acc, Chosen(e, t, s, i))
  {
    assert Chosen(e, t, s, i) == Chosen(e, t, s, i + 1);
  }

  /** The loop meets its reference at a chosen property without a column attribute. */
  lemma UndecoratedStep(e: Entity, t: Instance, s: Scope, lead: string, sep: string,
                        i: nat, trigger: bool, acc: Statement)
    requires Fits(e, t) && i < |t| && InScope(e.fields[i], s) && t[i].Some? && !Decorated(e.fields[i])
    ensures AppendEqualities(e, t, s, lead, sep, i, trigger, acc) ==
            Expected(e, t, lead, sep, trigger, acc, Chosen(e, t, s, i))
  {
    var rest := Chosen(e, t, s, i + 1);
    assert Chosen(e, t, s, i) == [i] + rest;
    ExpectedUndecorated(e, t, lead, sep, trigger, acc, i, rest);
  }

  /** The loop meets its reference at a chosen, decorated property once it meets
      it from the next property on. */
  lemma TakeStep(e: Entity, t: Instance, s: Scope, lead: string, sep: string,
                 i: nat, trigger: bool, acc: Statement, next: Statement)
    requires Fits(e, t) && i < |t| && InScope(e.fields[i], s) && t[i].Some? && Decorated(e.fields[i])
    requires next == Extended(e, t, lead, sep, i, trigger, acc)
    requires AppendEqualities(e, t, s, lead, sep, i + 1, true, next) == Expected(e, t, lead, sep, true, next, Chosen(e, t, s, i + 1))
    ensures AppendEqualities(e, t, s, lead, sep, i, trigger, acc) ==
            Expected(e, t, lead, sep, trigger, acc, Chosen(e, t, s, i))
  {
    var rest := Chosen(e, t, s, i + 1);
    assert Chosen(e, t, s, i) == [i] + rest;
    ExpectedStep(e, t, lead, sep, trigger, acc, i, rest);
  }

  /** The parts the insert loop should reach from `acc` over the properties from `i` on. */
  function ExpectedParts(e: Entity, t: Instance, trigger: bool, acc: InsertParts, i: nat): InsertParts
    requires Fits(e, t) && i <= |t| && AllDecorated(e) && AllPresent(t)
  {
    assert PresentAt(t, Indices(|t|));
    InsertParts(acc.columns + Glued("", ",", trigger, ColumnNames(e)[i..]),
                acc.values + Glued("", ",", trigger, Placeholders(|t|)[i..]),
                acc.params + Bindings(t, Indices(|t|))[i..])
  }

  lemma ExpectedPartsEmpty(e: Entity, t: Instance, trigger: bool, acc: InsertParts)
    requires Fits(e, t) && AllDecorated(e) && AllPresent(t)
    ensures ExpectedParts(e, t, trigger, acc, |t|) == acc
  {
    assert PresentAt(t, Indices(|t|));
    var names, holders, binds := ColumnNames(e), Placeholders(|t|), Bindings(t, Indices(|t|));
    assert names[|t|..] == [] && holders[|t|..] == [] && binds[|t|..] == [];
    assert Glued("", ",", trigger, []) == "";
    assert acc.columns + "" == acc.columns && acc.values + "" == acc.values && acc.params + [] == acc.params;
  }

  /** A loop with an empty `lead` appends the plain separator join. Dafny can
      show this unaided; naming it keeps the callers' proofs small and stable
      across solver seeds. */
  lemma GluedUnstartedEmptyLead(sep: string, xs: seq<string>)
    ensures "" + Glued("", sep, false, xs) == Join(sep, xs)
  {
  }

  lemma GluedSlice(lead: string, sep: string, trigger: bool, xs: seq<string>, i: nat)
    requires i < |xs|
    ensures Glued(lead, sep, trigger, xs[i..]) == (if trigger then sep else lead) + xs[i] + Glued(lead, sep, true, xs[i + 1..])
  {
    assert xs[i..] == [xs[i]] + xs[i + 1..];
    GluedStep(lead, sep, trigger, xs[i], xs[i + 1..]);
  }

  /** Regrouping a concatenation; stated once so the step lemmas below do not
      leave the solver to rediscover associativity. */
  lemma ConcatStep<T>(a: seq<T>, b: seq<T>, c: seq<T>, d: seq<T>)
    ensures a + (b + c + d) == a + b + c + d
  {
  }

  /** Steps the column list of `ExpectedParts` past property `i`. */
  lemma ColumnsStep(e: Entity, trigger: bool, columns: string, i: nat)
    requires AllDecorated(e) && i < |e.fields|
    ensures var glue := if trigger then "," else "";
      columns + Glued("", ",", trigger, ColumnNames(e)[i..])
      == columns + glue + ColumnName(e.fields[i]) + Glued("", ",", true, ColumnNames(e)[i + 1..])
  {
    var glue := if trigger then "," else "";
    GluedSlice("", ",", trigger, ColumnNames(e), i);
    ConcatStep(columns, glue, ColumnName(e.fields[i]), Glued("", ",", true, ColumnNames(e)[i + 1..]));
  }

  /** Steps the placeholder list of `ExpectedParts` past property `i`. */
  lemma ValuesStep(n: nat, trigger: bool, values: string, i: nat)
    requires i < n
    ensures var glue := if trigger then "," else "";
      values + Glued("", ",", trigger, Placeholders(n)[i..])
      == values + glue + Placeholder(i) + Glued("", ",", true, Placeholders(n)[i + 1..])
  {
    var glue := if trigger then "," else "";
    GluedSlice("", ",", trigger, Placeholders(n), i);
    ConcatStep(values, glue, Placeholder(i), Glued("", ",", true, Placeholders(n)[i + 1..]));
  }

  /** Steps the parameter list of `ExpectedParts` past property `i`. */
  lemma ParamsStep(t: Instance, params: seq<Param>, i: nat)
    requires AllPresent(t) && i < |t|
    ensures PresentAt(t, Indices(|t|))
    ensures params + Bindings(t, Indices(|t|))[i..]
      == params + [Param(Placeholder(i), t[i].value)] + Bindings(t, Indices(|t|))[i + 1..]
  {
    assert PresentAt(t, Indices(|t|));
    var binds := Bindings(t, Indices(|t|));
    assert binds[i..] == [binds[i]] + binds[i + 1..];
    ConcatStep(params, [], [binds[i]], binds[i + 1..]);
  }

  lemma ExpectedPartsStep(e: Entity, t: Instance, trigger: bool, acc: InsertParts, i: nat)
    requires Fits(e, t) && i < |t| && AllDecorated(e) && AllPresent(t)
    ensures var glue := if trigger then "," else "";
      ExpectedParts(e, t, trigger, acc, i) ==
      ExpectedParts(e, t, true, InsertParts(acc.columns + glue + ColumnName(e.fields[i]),
                                            acc.values + glue + Placeholder(i),
                                            acc.params + [Param(Placeholder(i), t[i].value)]), i + 1)
  {
    ColumnsStep(e, trigger, acc.columns, i);
    ValuesStep(|t|, trigger, acc.values, i);
    ParamsStep(t, acc.params, i);
  }

  /** The insert loop over fully present, decorated properties lists every
      remaining column and every remaining placeholder. */
  lemma {:induction false} AppendColumnsMeaning(e: Entity, t: Instance, i: nat, trigger: bool, acc: InsertParts)
    requires Fits(e, t) && i <= |t| && AllDecorated(e) && AllPresent(t)
    ensures AppendColumns(e, t, i, trigger, acc) == Success(ExpectedParts(e, t, trigger, acc, i))
    decreases |t| - i
  {
    if i == |t| {
      ExpectedPartsEmpty(e, t, trigger, acc);
    } else {
      var glue := if trigger then "," else "";
      var next := InsertParts(acc.columns + glue + ColumnName(e.fields[i]), acc.values + glue + Placeholder(i),
                              acc.params + [Param(Placeholder(i), t[i].value)]);
      AppendColumnsMeaning(e, t, i + 1, true, next);
      ExpectedPartsStep(e, t, trigger, acc, i);
    }
  }

  /** The insert loop throws at the first property that is null (`NullValue`) or
      undecorated (`InvalidDataModel`): a null property `j` gives `NullValue`
      unless some property before it is undecorated. */
  lemma {:induction false} AppendColumnsRejects(e: Entity, t: Instance, i: nat, trigger: bool, acc: InsertParts, j: nat)
    requires Fits(e, t) && i <= j < |t| && t[j].None?
    ensures AppendColumns(e, t, i, trigger, acc).Failure?
    ensures AppendColumns(e, t, i, trigger, acc).error in {NullValue, InvalidDataModel}
    ensures AllDecorated(e) ==> AppendColumns(e, t, i, trigger, acc) == Failure(NullValue)
    ensures (forall k :: i <= k < j ==> Decorated(e.fields[k])) ==> AppendColumns(e, t, i, trigger, acc) == Failure(NullValue)
    decreases |t| - i
  {
    if t[i].Some? && Decorated(e.fields[i]) {
      var glue := if trigger then "," else "";
      var next := InsertParts(acc.columns + glue + ColumnName(e.fields[i]), acc.values + glue + Placeholder(i),
                              acc.params + [Param(Placeholder(i), t[i].value)]);
      AppendColumnsRejects(e, t, i + 1, true, next, j);
    }
  }

  // ---------------------------------------------------------------------
  // The four builders against their reference statements

  /** `Select` emits `select * from T`, then one `col = @p` per non-null
      property in declaration order (the first after ` where `, the others
      after ` and `), then `;`, and binds each non-null value once. */
  lemma SelectMeaning(e: Entity, model: Option<Instance>)
    requires model.Some? ==> Fits(e, model.value)
    ensures e.table.None? ==> Select(e, model) == Failure(InvalidDataModel)
    ensures e.table.Some? && model.None? ==>
      Select(e, model) == Success(Statement("select * from " + e.table.value + ";", []))
    ensures e.table.Some? && model.Some? ==>
      var ch := Chosen(e, model.value, Every, 0);
      PresentAt(model.value, ch) &&
      Select(e, model) ==
        if DecoratedAt(e, ch)
        then Success(Statement("select * from " + e.table.value + WhereClause(Equalities(e, ch)) + ";",
                               Bindings(model.value, ch)))
        else Failure(InvalidDataModel)
  {
    if e.table.Some? && model.Some? {
      var t := model.value;
      var head := Statement("select * from " + e.table.value, []);
      var ch := Chosen(e, t, Every, 0);
      AppendEqualitiesMeaning(e, t, Every, " where ", " and ", 0, false, head);
      if DecoratedAt(e, ch) {
        var es := Equalities(e, ch);
        assert Glued(" where ", " and ", false, es) == WhereClause(es);
        assert [] + Bindings(t, ch) == Bindings(t, ch);
      }
    }
  }

  /** A null template, or one whose properties are all null, selects the whole
      table with no parameters. */
  lemma SelectWithoutFilter(e: Entity, model: Option<Instance>)
    requires model.Some? ==> Fits(e, model.value) && AllAbsent(model.value)
    requires e.table.Some?
    ensures Select(e, model) == Success(Statement("select * from " + e.table.value + ";", []))
  {
    SelectMeaning(e, model);
    if model.Some? {
      NothingChosen(e, model.value, Every, 0);
      assert Equalities(e, []) == [] && Bindings(model.value, []) == [];
      assert WhereClause([]) == "";
      assert "select * from " + e.table.value + "" == "select * from " + e.table.value;
    }
  }

  /** The clause text over one decorated property `j`. */
  lemma OneEquality(e: Entity, j: nat)
    requires j < |e.fields| && Decorated(e.fields[j])
    ensures DecoratedAt(e, [j])
    ensures Equalities(e, [j]) == [ColumnName(e.fields[j]) + " = " + Placeholder(j)]
    ensures WhereClause(Equalities(e, [j])) == " where " + ColumnName(e.fields[j]) + " = " + Placeholder(j)
  {
    assert Equalities(e, [j])[0] == Equality(ColumnName(e.fields[j]), j);
  }

  /** A template whose only non-null property is a decorated property `j`
      filters on that column alone. */
  lemma SelectOneFilter(e: Entity, t: Instance, j: nat)
    requires Fits(e, t) && e.table.Some? && j < |t| && Decorated(e.fields[j])
    requires Chosen(e, t, Every, 0) == [j]
    ensures t[j].Some?
    ensures Select(e, Some(t)) ==
      Success(Statement("select * from " + e.table.value + (" where " + ColumnName(e.fields[j]) + " = " + Placeholder(j)) + ";",
                        [Param(Placeholder(j), t[j].value)]))
  {
    assert [j][0] == j;
    SelectMeaning(e, Some(t));
    OneEquality(e, j);
    assert Bindings(t, [j]) == [Param(Placeholder(j), t[j].value)];
  }

  /** `Select` throws exactly when the class has no table or some non-null
      property has no column attribute; otherwise it binds one parameter per
      non-null property, in declaration order, holding that property's value. */
  lemma SelectParameters(e: Entity, t: Instance)
    requires Fits(e, t)
    ensures Select(e, Some(t)).Success? <==>
      e.table.Some? && forall i :: 0 <= i < |t| && t[i].Some? ==> Decorated(e.fields[i])
    ensures Select(e, Some(t)).Success? ==>
      var ps, ch := Select(e, Some(t)).value.params, Chosen(e, t, Every, 0);
      && |ps| == |ch|
      && (forall k :: 0 <= k < |ps| ==> ps[k].name == Placeholder(ch[k]) && Some(ps[k].value) == t[ch[k]])
      && (forall i :: 0 <= i < |t| ==> (t[i].Some? <==> i in ch))
  {
    SelectMeaning(e, Some(t));
  }

  /** `Insert` lists every column in declaration order and one placeholder per
      column inside `insert into T (...) values (...);` when every property is
      non-null and decorated. */
  lemma InsertMeaning(e: Entity, model: Option<Instance>)
    requires model.Some? ==> Fits(e, model.value)
    ensures model.None? ==> Insert(e, model) == Failure(NullModel)
    ensures model.Some? && e.table.None? ==> Insert(e, model) == Failure(InvalidDataModel)
    ensures model.Some? && e.table.Some? && AllDecorated(e) && AllPresent(model.value) ==>
      var t := model.value;
      PresentAt(t, Indices(|t|)) &&
      Insert(e, model) ==
        Success(Statement("insert into " + e.table.value + " (" + Join(",", ColumnNames(e)) + ") values ("
                            + Join(",", Placeholders(|t|)) + ");",
                          Bindings(t, Indices(|t|))))
  {
    if model.Some? && e.table.Some? && AllDecorated(e) && AllPresent(model.value) {
      var t := model.value;
      assert PresentAt(t, Indices(|t|));
      AppendColumnsMeaning(e, t, 0, false, InsertParts("", "", []));
      var names, holders, binds := ColumnNames(e), Placeholders(|t|), Bindings(t, Indices(|t|));
      assert names[0..] == names && holders[0..] == holders && binds[0..] == binds;
      GluedUnstartedEmptyLead(",", names);
      GluedUnstartedEmptyLead(",", holders);
      var parts := ExpectedParts(e, t, false, InsertParts("", "", []), 0);
      assert parts.columns == Join(",", names);
      assert parts.values == Join(",", holders);
      assert parts.params == binds;
    }
  }

  /** `Insert` produces no statement for a null object or for an object with
      any null property. */
  lemma InsertRejectsNull(e: Entity, model: Option<Instance>)
    requires model.Some? ==> Fits(e, model.value)
    requires model.Some? ==> !AllPresent(model.value)
    ensures Insert(e, model).Failure?
    ensures model.None? ==> Insert(e, model).error == NullModel
    ensures model.Some? && e.table.Some? && AllDecorated(e) ==> Insert(e, model).error == NullValue
  {
    if model.Some? && e.table.Some? {
      var j :| 0 <= j < |model.value| && model.value[j].None?;
      AppendColumnsRejects(e, model.value, 0, false, InsertParts("", "", []), j);
    }
  }

  /** Key properties always carry a column attribute, so the WHERE loops never throw. */
  lemma KeysAreDecorated(e: Entity, t: Instance)
    requires Fits(e, t)
    ensures DecoratedAt(e, Chosen(e, t, KeysOnly, 0))
  {
  }

  /** `Update` writes `update T set `, one `col = @p` per non-null non-key
      property separated by `, ` (possibly none), the WHERE clause over the
      non-null key properties only, and `;`. */
  lemma UpdateMeaning(e: Entity, model: Option<Instance>)
    requires model.Some? ==> Fits(e, model.value)
    ensures e.table.None? ==> Update(e, model) == Failure(InvalidDataModel)
    ensures e.table.Some? && !HasKey(e) ==> Update(e, model) == Failure(NoPrimaryKey)
    ensures e.table.Some? && HasKey(e) && model.None? ==>
      Update(e, model) == Success(Statement("update " + e.table.value + " set ;", []))
    ensures e.table.Some? && HasKey(e) && model.Some? ==>
      var t := model.value;
      var sets, keys := Chosen(e, t, NonKeys, 0), Chosen(e, t, KeysOnly, 0);
      PresentAt(t, sets) && PresentAt(t, keys) && DecoratedAt(e, keys) &&
      Update(e, model) ==
        if DecoratedAt(e, sets)
        then Success(Statement("update " + e.table.value + " set " + Join(", ", Equalities(e, sets))
                                 + WhereClause(Equalities(e, keys)) + ";",
                               Bindings(t, sets) + Bindings(t, keys)))
        else Failure(InvalidDataModel)
  {
    if e.table.Some? && HasKey(e) {
      var head := Statement("update " + e.table.value + " set ", []);
      if model.None? {
        assert head.sql + ";" == "update " + e.table.value + " set ;";
      } else {
        var t := model.value;
        var sets := Chosen(e, t, NonKeys, 0);
        SetListMeaning(e, t, head);
        KeysAreDecorated(e, t);
        if DecoratedAt(e, sets) {
          WhereListMeaning(e, t, Statement(head.sql + Join(", ", Equalities(e, sets)), Bindings(t, sets)));
        }
      }
    }
  }

  /** The SET loop of `Update`: the assignments joined by `, `, with no lead. */
  lemma SetListMeaning(e: Entity, t: Instance, head: Statement)
    requires Fits(e, t) && head.params == []
    ensures var sets := Chosen(e, t, NonKeys, 0);
      && PresentAt(t, sets)
      && AppendEqualities(e, t, NonKeys, "", ", ", 0, false, head) ==
        if DecoratedAt(e, sets)
        then Success(Statement(head.sql + Join(", ", Equalities(e, sets)), Bindings(t, sets)))
        else Failure(InvalidDataModel)
  {
    var sets := Chosen(e, t, NonKeys, 0);
    AppendEqualitiesMeaning(e, t, NonKeys, "", ", ", 0, false, head);
    if DecoratedAt(e, sets) {
      ExpectedUnstarted(e, t, head, sets);
    }
  }

  /** A loop with no lead, started from an empty parameter list, produces the
      plain join of its equalities. */
  lemma ExpectedUnstarted(e: Entity, t: Instance, head: Statement, ch: seq<nat>)
    requires PresentAt(t, ch) && DecoratedAt(e, ch) && head.params == []
    ensures Expected(e, t, "", ", ", false, head, ch) ==
      Success(Statement(head.sql + Join(", ", Equalities(e, ch)), Bindings(t, ch)))
  {
    var es := Equalities(e, ch);
    GluedUnstartedEmptyLead(", ", es);
    assert "" + Glued("", ", ", false, es) == Glued("", ", ", false, es);
    assert [] + Bindings(t, ch) == Bindings(t, ch);
  }


  /** The key loop of `Update` and `Delete`: the WHERE clause over the non-null keys. */
  lemma WhereListMeaning(e: Entity, t: Instance, acc: Statement)
    requires Fits(e, t)
    ensures var keys := Chosen(e, t, KeysOnly, 0);
      && PresentAt(t, keys) && DecoratedAt(e, keys)
      && AppendEqualities(e, t, KeysOnly, " where ", " and ", 0, false, acc) ==
        Success(Statement(acc.sql + WhereClause(Equalities(e, keys)), acc.params + Bindings(t, keys)))
  {
    var keys := Chosen(e, t, KeysOnly, 0);
    KeysAreDecorated(e, t);
    AppendEqualitiesMeaning(e, t, KeysOnly, " where ", " and ", 0, false, acc);
    assert Glued(" where ", " and ", false, Equalities(e, keys)) == WhereClause(Equalities(e, keys));
  }


  /** `Delete` writes `delete from T` and the WHERE clause over the non-null key
      properties, with no trailing `;`. */
  lemma DeleteMeaning(e: Entity, model: Option<Instance>)
    requires model.Some? ==> Fits(e, model.value)
    ensures model.None? ==> Delete(e, model) == Failure(NullModel)
    ensures model.Some? && e.table.None? ==> Delete(e, model) == Failure(InvalidDataModel)
    ensures model.Some? && e.table.Some? && !HasKey(e) ==> Delete(e, model) == Failure(NoPrimaryKey)
    ensures model.Some? && e.table.Some? && HasKey(e) ==>
      var keys := Chosen(e, model.value, KeysOnly, 0);
      PresentAt(model.value, keys) && DecoratedAt(e, keys) &&
      Delete(e, model) ==
        Success(Statement("delete from " + e.table.value + WhereClause(Equalities(e, keys)),
                          Bindings(model.value, keys)))
  {
    if model.Some? && e.table.Some? && HasKey(e) {
      var t := model.value;
      var keys := Chosen(e, t, KeysOnly, 0);
      KeysAreDecorated(e, t);
      AppendEqualitiesMeaning(e, t, KeysOnly, " where ", " and ", 0, false,
                              Statement("delete from " + e.table.value, []));
      assert Glued(" where ", " and ", false, Equalities(e, keys)) == WhereClause(Equalities(e, keys));
      assert [] + Bindings(t, keys) == Bindings(t, keys);
    }
  }

  /** A template whose only non-null key property is `j` deletes by that key alone. */
  lemma DeleteOneKey(e: Entity, t: Instance, j: nat)
    requires Fits(e, t) && e.table.Some? && HasKey(e) && j < |t|
    requires Chosen(e, t, KeysOnly, 0) == [j]
    ensures Decorated(e.fields[j]) && t[j].Some?
    ensures Delete(e, Some(t)) ==
      Success(Statement("delete from " + e.table.value + (" where " + ColumnName(e.fields[j]) + " = " + Placeholder(j)),
                        [Param(Placeholder(j), t[j].value)]))
  {
    assert [j][0] == j;
    DeleteMeaning(e, Some(t));
    OneEquality(e, j);
    assert Bindings(t, [j]) == [Param(Placeholder(j), t[j].value)];
  }
}
