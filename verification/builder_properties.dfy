/** Properties of the four builders that follow from their reference
    statements: placeholders are never reused, the SQL text never depends on
    property values, absent keys silently drop out of the WHERE clause, an
    update without non-null non-key properties has an empty SET list, and a
    delete looks at key properties only. */
module BuilderProperties {
  import opened Wrappers
  import opened Metadata
  import opened Builders
  import opened BuilderSpec
  import Decimal

  /** Distinct properties get distinct placeholders. */
  lemma PlaceholderInjective(i: nat, j: nat)
    ensures Placeholder(i) == Placeholder(j) ==> i == j
  {
    if Placeholder(i) == Placeholder(j) {
      assert Placeholder(i)[2..] == Decimal.Show(i);
      assert Placeholder(j)[2..] == Decimal.Show(j);
      Decimal.ShowInjective(i, j);
    }
  }

  /** Parameters bound for two disjoint lists of distinct properties have
      pairwise distinct names. */
  lemma BindingsDistinct(t: Instance, c1: seq<nat>, c2: seq<nat>)
    requires PresentAt(t, c1) && PresentAt(t, c2)
    requires forall a, b :: 0 <= a < b < |c1| ==> c1[a] != c1[b]
    requires forall a, b :: 0 <= a < b < |c2| ==> c2[a] != c2[b]
    requires forall a, b :: 0 <= a < |c1| && 0 <= b < |c2| ==> c1[a] != c2[b]
    ensures DistinctNames(Bindings(t, c1) + Bindings(t, c2))
  {
    var c := c1 + c2;
    var ps := Bindings(t, c1) + Bindings(t, c2);
    forall a, b | 0 <= a < b < |ps|
      ensures ps[a].name != ps[b].name
    {
      assert ps[a].name == Placeholder(c[a]) && ps[b].name == Placeholder(c[b]);
      assert c[a] != c[b];
      PlaceholderInjective(c[a], c[b]);
    }
  }

  lemma SelectPlaceholdersDistinct(e: Entity, model: Option<Instance>)
    requires model.Some? ==> Fits(e, model.value)
    ensures Select(e, model).Success? ==> DistinctNames(Select(e, model).value.params)
  {
    SelectMeaning(e, model);
    if model.Some? && e.table.Some? {
      var t := model.value;
      var all := Chosen(e, t, Every, 0);
      if DecoratedAt(e, all) {
        BindingsDistinct(t, all, []);
        assert Bindings(t, all) + Bindings(t, []) == Bindings(t, all);
      }
    }
  }

  lemma InsertPlaceholdersDistinct(e: Entity, model: Option<Instance>)
    requires model.Some? ==> Fits(e, model.value)
    ensures Insert(e, model).Success? ==> DistinctNames(Insert(e, model).value.params)
  {
    if model.Some? && Insert(e, model).Success? {
      var t := model.value;
      if !AllPresent(t) {
        InsertRejectsNull(e, model);
      }
      if !AllDecorated(e) {
        InsertNeedsColumns(e, t);
      }
      InsertMeaning(e, model);
      BindingsDistinct(t, Indices(|t|), []);
      assert Bindings(t, Indices(|t|)) + Bindings(t, []) == Bindings(t, Indices(|t|));
    }
  }

  lemma UpdatePlaceholdersDistinct(e: Entity, model: Option<Instance>)
    requires model.Some? ==> Fits(e, model.value)
    ensures Update(e, model).Success? ==> DistinctNames(Update(e, model).value.params)
  {
    UpdateMeaning(e, model);
    if model.Some? && e.table.Some? && HasKey(e) {
      var t := model.value;
      BindingsDistinct(t, Chosen(e, t, NonKeys, 0), Chosen(e, t, KeysOnly, 0));
    }
  }

  lemma DeletePlaceholdersDistinct(e: Entity, model: Option<Instance>)
    requires model.Some? ==> Fits(e, model.value)
    ensures Delete(e, model).Success? ==> DistinctNames(Delete(e, model).value.params)
  {
    DeleteMeaning(e, model);
    if model.Some? && e.table.Some? && HasKey(e) {
      var t := model.value;
      var keys := Chosen(e, t, KeysOnly, 0);
      BindingsDistinct(t, keys, []);
      assert Bindings(t, keys) + Bindings(t, []) == Bindings(t, keys);
    }
  }

  /** No builder ever binds two parameters of one name, so none of the
      `parameterDict.Add` calls can throw. */
  lemma PlaceholdersDistinct(e: Entity, model: Option<Instance>)
    requires model.Some? ==> Fits(e, model.value)
    ensures Select(e, model).Success? ==> DistinctNames(Select(e, model).value.params)
    ensures Insert(e, model).Success? ==> DistinctNames(Insert(e, model).value.params)
    ensures Update(e, model).Success? ==> DistinctNames(Update(e, model).value.params)
    ensures Delete(e, model).Success? ==> DistinctNames(Delete(e, model).value.params)
  {
    SelectPlaceholdersDistinct(e, model);
    InsertPlaceholdersDistinct(e, model);
    UpdatePlaceholdersDistinct(e, model);
    DeletePlaceholdersDistinct(e, model);
  }

  /** An insert of an object with a non-null undecorated property throws. */
  lemma InsertNeedsColumns(e: Entity, t: Instance)
    requires Fits(e, t) && !AllDecorated(e)
    ensures Insert(e, Some(t)).Failure?
  {
    var j :| 0 <= j < |e.fields| && !Decorated(e.fields[j]);
    AppendColumnsFailsAt(e, t, 0, false, InsertParts("", "", []), j);
  }

  lemma {:induction false} AppendColumnsFailsAt(e: Entity, t: Instance, i: nat, trigger: bool, acc: InsertParts, j: nat)
    requires Fits(e, t) && i <= j < |t| && !Decorated(e.fields[j])
    ensures AppendColumns(e, t, i, trigger, acc).Failure?
    decreases |t| - i
  {
    if t[i].Some? && Decorated(e.fields[i]) {
      var glue := if trigger then "," else "";
      var next := InsertParts(acc.columns + glue + ColumnName(e.fields[i]), acc.values + glue + Placeholder(i),
                              acc.params + [Param(Placeholder(i), t[i].value)]);
      AppendColumnsFailsAt(e, t, i + 1, true, next, j);
    }
  }

  // ---------------------------------------------------------------------
  // Values reach only the parameter list

  /** The text `Select` builds, whether it throws, and the placeholders it
      binds depend only on which properties are non-null. */
  lemma SelectTextIgnoresValues(e: Entity, t1: Instance, t2: Instance)
    requires Fits(e, t1) && Fits(e, t2) && SamePresence(t1, t2)
    ensures SameShape(Select(e, Some(t1)), Select(e, Some(t2)))
  {
    SelectMeaning(e, Some(t1));
    SelectMeaning(e, Some(t2));
    ChosenIgnoresValues(e, t1, t2, Every, 0);
  }

  lemma {:induction false} AppendColumnsIgnoresValues(e: Entity, t1: Instance, t2: Instance, i: nat, trigger: bool,
                                                      a1: InsertParts, a2: InsertParts)
    requires Fits(e, t1) && Fits(e, t2) && SamePresence(t1, t2) && i <= |t1|
    requires a1.columns == a2.columns && a1.values == a2.values && SameNames(a1.params, a2.params)
    ensures var r1, r2 := AppendColumns(e, t1, i, trigger, a1), AppendColumns(e, t2, i, trigger, a2);
      && r1.Success? == r2.Success?
      && (r1.Failure? ==> r1.error == r2.error)
      && (r1.Success? ==> r1.value.columns == r2.value.columns && r1.value.values == r2.value.values
                          && SameNames(r1.value.params, r2.value.params))
    decreases |t1| - i
  {
    if i < |t1| && t1[i].Some? && Decorated(e.fields[i]) {
      var glue := if trigger then "," else "";
      var n1 := InsertParts(a1.columns + glue + ColumnName(e.fields[i]), a1.values + glue + Placeholder(i),
                            a1.params + [Param(Placeholder(i), t1[i].value)]);
      var n2 := InsertParts(a2.columns + glue + ColumnName(e.fields[i]), a2.values + glue + Placeholder(i),
                            a2.params + [Param(Placeholder(i), t2[i].value)]);
      assert SameNames(n1.params, n2.params);
      AppendColumnsIgnoresValues(e, t1, t2, i + 1, true, n1, n2);
    }
  }

  /** The text `Insert` builds, whether it throws, and the placeholders it
      binds depend only on which properties are non-null. */
  lemma InsertTextIgnoresValues(e: Entity, t1: Instance, t2: Instance)
    requires Fits(e, t1) && Fits(e, t2) && SamePresence(t1, t2)
    ensures SameShape(Insert(e, Some(t1)), Insert(e, Some(t2)))
  {
    var a := InsertParts("", "", []);
    AppendColumnsIgnoresValues(e, t1, t2, 0, false, a, a);
  }

  /** The text `Update` builds, whether it throws, and the placeholders it
      binds depend only on which properties are non-null. */
  lemma UpdateTextIgnoresValues(e: Entity, t1: Instance, t2: Instance)
    requires Fits(e, t1) && Fits(e, t2) && SamePresence(t1, t2)
    ensures SameShape(Update(e, Some(t1)), Update(e, Some(t2)))
  {
    UpdateMeaning(e, Some(t1));
    UpdateMeaning(e, Some(t2));
    ChosenIgnoresValues(e, t1, t2, NonKeys, 0);
    ChosenIgnoresValues(e, t1, t2, KeysOnly, 0);
    if e.table.Some? && HasKey(e) {
      BindingsSameNames(t1, t2, Chosen(e, t1, NonKeys, 0), Chosen(e, t1, KeysOnly, 0));
    }
  }

  /** Bindings over the same properties of two objects differ only in values. */
  lemma BindingsSameNames(t1: Instance, t2: Instance, c1: seq<nat>, c2: seq<nat>)
    requires PresentAt(t1, c1) && PresentAt(t1, c2) && PresentAt(t2, c1) && PresentAt(t2, c2)
    ensures SameNames(Bindings(t1, c1) + Bindings(t1, c2), Bindings(t2, c1) + Bindings(t2, c2))
  {
    var p1 := Bindings(t1, c1) + Bindings(t1, c2);
    var p2 := Bindings(t2, c1) + Bindings(t2, c2);
    assert forall k :: 0 <= k < |p1| ==> p1[k].name == p2[k].name;
  }

  /** The text `Delete` builds, whether it throws, and the placeholders it
      binds depend only on which properties are non-null. */
  lemma DeleteTextIgnoresValues(e: Entity, t1: Instance, t2: Instance)
    requires Fits(e, t1) && Fits(e, t2) && SamePresence(t1, t2)
    ensures SameShape(Delete(e, Some(t1)), Delete(e, Some(t2)))
  {
    DeleteMeaning(e, Some(t1));
    DeleteMeaning(e, Some(t2));
    ChosenIgnoresValues(e, t1, t2, KeysOnly, 0);
  }

  // ---------------------------------------------------------------------
  // Keys in Update and Delete

  /** `Delete` reads the key properties only: two objects that agree on every
      key property produce the same statement, whatever their other properties. */
  lemma DeleteIgnoresNonKeys(e: Entity, t1: Instance, t2: Instance)
    requires Fits(e, t1) && Fits(e, t2)
    requires forall i :: 0 <= i < |t1| && IsKey(e.fields[i]) ==> t1[i] == t2[i]
    ensures Delete(e, Some(t1)) == Delete(e, Some(t2))
  {
    DeleteMeaning(e, Some(t1));
    DeleteMeaning(e, Some(t2));
    ChosenIgnoresValues(e, t1, t2, KeysOnly, 0);
    var keys := Chosen(e, t1, KeysOnly, 0);
    assert Bindings(t1, keys) == Bindings(t2, keys);
  }

  /** A null key property is dropped from the WHERE clause rather than
      rejected: with every key property null, `Delete` has no WHERE clause at
      all and removes every row. */
  lemma AbsentKeysDeleteAll(e: Entity, t: Instance)
    requires Fits(e, t) && e.table.Some? && HasKey(e)
    requires forall i :: 0 <= i < |t| && IsKey(e.fields[i]) ==> t[i].None?
    ensures Delete(e, Some(t)) == Success(Statement("delete from " + e.table.value, []))
  {
    NothingChosen(e, t, KeysOnly, 0);
    DeleteMeaning(e, Some(t));
    assert Equalities(e, []) == [] && Bindings(t, []) == [];
    assert WhereClause([]) == "";
    assert "delete from " + e.table.value + "" == "delete from " + e.table.value;
  }

  /** With every key property null, `Update` ends right after its SET list and
      so rewrites every row. */
  lemma AbsentKeysUpdateAll(e: Entity, t: Instance)
    requires Fits(e, t) && e.table.Some? && HasKey(e)
    requires forall i :: 0 <= i < |t| && IsKey(e.fields[i]) ==> t[i].None?
    ensures Update(e, Some(t)).Success? ==>
      var sets := Chosen(e, t, NonKeys, 0);
      DecoratedAt(e, sets) &&
      Update(e, Some(t)).value ==
        Statement("update " + e.table.value + " set " + Join(", ", Equalities(e, sets)) + ";", Bindings(t, sets))
  {
    NothingChosen(e, t, KeysOnly, 0);
    UpdateMeaning(e, Some(t));
    assert Equalities(e, []) == [] && Bindings(t, []) == [];
    assert WhereClause([]) == "";
    var sets := Chosen(e, t, NonKeys, 0);
    if DecoratedAt(e, sets) {
      assert Bindings(t, sets) + [] == Bindings(t, sets);
      assert "update " + e.table.value + " set " + Join(", ", Equalities(e, sets)) + "" + ";"
          == "update " + e.table.value + " set " + Join(", ", Equalities(e, sets)) + ";";
    }
  }

  /** With no non-null non-key property, `Update` still runs, with an empty SET
      list: `update T set ` directly followed by the WHERE clause. */
  lemma UpdateEmptySet(e: Entity, t: Instance)
    requires Fits(e, t) && e.table.Some? && HasKey(e)
    requires forall i :: 0 <= i < |t| && t[i].Some? ==> IsKey(e.fields[i])
    ensures var keys := Chosen(e, t, KeysOnly, 0);
      Update(e, Some(t)) ==
        Success(Statement("update " + e.table.value + " set " + WhereClause(Equalities(e, keys)) + ";", Bindings(t, keys)))
  {
    NothingChosen(e, t, NonKeys, 0);
    UpdateMeaning(e, Some(t));
    assert Equalities(e, []) == [] && Bindings(t, []) == [];
    assert Join(", ", []) == "";
    var keys := Chosen(e, t, KeysOnly, 0);
    assert [] + Bindings(t, keys) == Bindings(t, keys);
    assert "update " + e.table.value + " set " + "" == "update " + e.table.value + " set ";
  }

  /** A template whose only non-null property is the key `j` updates nothing
      but still filters on that key: `update T set  where col = @p;`. */
  lemma UpdateOnlyKey(e: Entity, t: Instance, j: nat)
    requires Fits(e, t) && e.table.Some? && HasKey(e) && j < |t|
    requires forall i :: 0 <= i < |t| && t[i].Some? ==> IsKey(e.fields[i])
    requires Chosen(e, t, KeysOnly, 0) == [j]
    ensures Decorated(e.fields[j]) && t[j].Some?
    ensures Update(e, Some(t)) ==
      Success(Statement("update " + e.table.value + " set " + (" where " + ColumnName(e.fields[j]) + " = " + Placeholder(j)) + ";",
                        [Param(Placeholder(j), t[j].value)]))
  {
    assert [j][0] == j;
    UpdateEmptySet(e, t);
    OneEquality(e, j);
    assert Bindings(t, [j]) == [Param(Placeholder(j), t[j].value)];
  }
}
