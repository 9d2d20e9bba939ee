/** The two entity classes of the calendar service, `Event` and `AppId`, as
    descriptors, their constructors as templates, and the statements the
    mapper builds for them. */
module Models {
  import opened Wrappers
  import opened Metadata
  import opened Builders
  import opened BuilderSpec
  import BuilderProperties
  import Reader

  function TextSlot(s: Option<string>): Option<Value> {
    match s
    case None => None
    case Some(x) => Some(Text(x))
  }

  function LongSlot(n: Option<Int64>): Option<Value> {
    match n
    case None => None
    case Some(x) => Some(Long(x))
  }

  /** Reads a `string?` property back out of a slot. */
  function TextOf(v: Option<Value>): Option<string> {
    match v
    case Some(Text(x)) => Some(x)
    case _ => None
  }

  /** Reads a `long?` property back out of a slot. */
  function LongOf(v: Option<Value>): Option<Int64> {
    match v
    case Some(Long(x)) => Some(x)
    case _ => None
  }

  /** The names of the first six placeholders. */
  lemma SmallPlaceholders()
    ensures Placeholder(0) == "@p0" && Placeholder(1) == "@p1" && Placeholder(2) == "@p2"
    ensures Placeholder(3) == "@p3" && Placeholder(4) == "@p4" && Placeholder(5) == "@p5"
  {
  }

  // ---------------------------------------------------------------------
  // Event

  /** `[DataModel("Events")] class Event` with its six decorated properties. */
  const EventEntity: Entity := Entity(Some("Events"), [
    Field(TextKind, Some(Column("event_id", true))),
    Field(TextKind, Some(Column("title", false))),
    Field(LongKind, Some(Column("start_time", false))),
    Field(LongKind, Some(Column("end_time", false))),
    Field(TextKind, Some(Column("description", false))),
    Field(TextKind, Some(Column("app_key", false)))
  ])

  /** `new Event()`: every property keeps its `null` initializer. */
  function NewEvent(): Instance {
    [None, None, None, None, None, None]
  }

  /** `new Event(eventId, title, startTime, endTime, description, appId)`, each
      argument defaulting to `null`. */
  function EventOf(eventId: Option<string>, title: Option<string>, startTime: Option<Int64>,
                   endTime: Option<Int64>, description: Option<string>, appId: Option<string>): Instance
  {
    [TextSlot(eventId), TextSlot(title), LongSlot(startTime), LongSlot(endTime), TextSlot(description), TextSlot(appId)]
  }

  /** The `Event` class maps to table `Events`, has exactly the columns
      `event_id`, `title`, `start_time`, `end_time`, `description`, `app_key` in
      this order, and `event_id` is its only primary key. */
  lemma EventDescriptor()
    ensures WellFormed(EventEntity) && HasKey(EventEntity)
    ensures EventEntity.table == Some("Events")
    ensures ColumnNames(EventEntity) == ["event_id", "title", "start_time", "end_time", "description", "app_key"]
    ensures forall i :: 0 <= i < |EventEntity.fields| ==> (IsKey(EventEntity.fields[i]) <==> i == 0)
  {
    assert IsKey(EventEntity.fields[0]);
  }

  /** The part of `EventDescriptor` most proofs need: it has a table and a key,
      every property is mapped, and the key is `event_id`. */
  lemma EventBasics()
    ensures EventEntity.table == Some("Events") && HasKey(EventEntity) && AllDecorated(EventEntity)
    ensures IsKey(EventEntity.fields[0]) && ColumnName(EventEntity.fields[0]) == "event_id"
  {
    EventDescriptor();
    assert ColumnNames(EventEntity)[0] == ColumnName(EventEntity.fields[0]);
  }

  /** Both constructors build objects of the class with values of the declared
      types; the parameterless one is the all-null template, and the other one
      gives back exactly its arguments through the properties. */
  lemma EventConstructors(eventId: Option<string>, title: Option<string>, startTime: Option<Int64>,
                          endTime: Option<Int64>, description: Option<string>, appId: Option<string>)
    ensures Conforms(EventEntity, NewEvent()) && AllAbsent(NewEvent())
    ensures EventOf(None, None, None, None, None, None) == NewEvent()
    ensures var t := EventOf(eventId, title, startTime, endTime, description, appId);
      && Conforms(EventEntity, t)
      && TextOf(t[0]) == eventId && TextOf(t[1]) == title
      && LongOf(t[2]) == startTime && LongOf(t[3]) == endTime
      && TextOf(t[4]) == description && TextOf(t[5]) == appId
  {
    EventOfConforms(eventId, title, startTime, endTime, description, appId);
  }

  lemma EventOfConforms(eventId: Option<string>, title: Option<string>, startTime: Option<Int64>,
                        endTime: Option<Int64>, description: Option<string>, appId: Option<string>)
    ensures Conforms(EventEntity, EventOf(eventId, title, startTime, endTime, description, appId))
  {
    var t := EventOf(eventId, title, startTime, endTime, description, appId);
    forall k | 0 <= k < |t| && t[k].Some?
      ensures KindOf(t[k].value) == EventEntity.fields[k].kind
    {
      assert k in {0, 1, 2, 3, 4, 5};
    }
  }

  /** `Select(new Event())` reads the whole `Events` table. */
  lemma SelectAllEvents()
    ensures Select(EventEntity, Some(NewEvent())) == Success(Statement("select * from Events;", []))
  {
    BuilderSpec.SelectWithoutFilter(EventEntity, Some(NewEvent()));
    assert "select * from " + "Events" + ";" == "select * from Events;";
  }

  lemma AppKeyOnlyChoosesAppKey(k: string)
    ensures Chosen(EventEntity, EventOf(None, None, None, None, None, Some(k)), Every, 0) == [5]
  {
    var t := EventOf(None, None, None, None, None, Some(k));
    assert Chosen(EventEntity, t, Every, 6) == [];
    assert Chosen(EventEntity, t, Every, 5) == [5];
    assert Chosen(EventEntity, t, Every, 4) == [5];
    assert Chosen(EventEntity, t, Every, 3) == [5];
    assert Chosen(EventEntity, t, Every, 2) == [5];
    assert Chosen(EventEntity, t, Every, 1) == [5];
  }

  /** `Select(new Event(appId: k))`, the controller's per-key listing, filters on
      `app_key` alone and binds `k` once. */
  lemma SelectEventsOfApp(k: string)
    ensures Select(EventEntity, Some(EventOf(None, None, None, None, None, Some(k)))) ==
      Success(Statement("select * from " + "Events" + (" where " + "app_key" + " = " + "@p5") + ";", [Param("@p5", Text(k))]))
  {
    var t := EventOf(None, None, None, None, None, Some(k));
    AppKeyOnlyChoosesAppKey(k);
    SelectOneFilter(EventEntity, t, 5);
    assert Placeholder(5) == "@p5";
  }

  /** `Delete` of any event whose `EventId` is `id`: the controller's delete
      filters on `event_id` alone, whatever the other properties hold. */
  lemma DeleteEvent(t: Instance, id: string)
    requires Fits(EventEntity, t) && t[0] == Some(Text(id))
    ensures Delete(EventEntity, Some(t)) ==
      Success(Statement("delete from " + "Events" + (" where " + "event_id" + " = " + "@p0"), [Param("@p0", Text(id))]))
  {
    EventBasics();
    EventKeyChoice(t);
    DeleteOneKey(EventEntity, t, 0);
    assert Placeholder(0) == "@p0";
  }

  /** A fully populated event, as the controller builds for an insert. */
  function FullEvent(id: string, title: string, start: Int64, end: Int64, description: string, appId: string): Instance {
    EventOf(Some(id), Some(title), Some(start), Some(end), Some(description), Some(appId))
  }

  lemma JoinFive(sep: string, a: string, b: string, c: string, d: string, f: string)
    ensures Join(sep, [a, b, c, d, f]) == a + sep + b + sep + c + sep + d + sep + f
  {
    assert [d, f][1..] == [f];
    assert Join(sep, [d, f]) == d + sep + f;
    assert [c, d, f][1..] == [d, f];
    assert Join(sep, [c, d, f]) == c + sep + (d + sep + f);
    assert [b, c, d, f][1..] == [c, d, f];
    assert Join(sep, [b, c, d, f]) == b + sep + (c + sep + (d + sep + f));
    assert [a, b, c, d, f][1..] == [b, c, d, f];
    assert Join(sep, [a, b, c, d, f]) == a + sep + (b + sep + (c + sep + (d + sep + f)));
  }

  lemma JoinSix(sep: string, a: string, b: string, c: string, d: string, f: string, g: string)
    ensures Join(sep, [a, b, c, d, f, g]) == a + sep + b + sep + c + sep + d + sep + f + sep + g
  {
    assert [a, b, c, d, f, g][1..] == [b, c, d, f, g];
    JoinFive(sep, b, c, d, f, g);
  }

  lemma EventColumnList()
    ensures Join(",", ColumnNames(EventEntity)) == "event_id" + "," + "title" + "," + "start_time" + "," + "end_time" + "," + "description" + "," + "app_key"
  {
    EventDescriptor();
    JoinSix(",", "event_id", "title", "start_time", "end_time", "description", "app_key");
  }

  lemma EventPlaceholderList()
    ensures Join(",", Placeholders(6)) == "@p0" + "," + "@p1" + "," + "@p2" + "," + "@p3" + "," + "@p4" + "," + "@p5"
  {
    SmallPlaceholders();
    assert Placeholders(6) == ["@p0", "@p1", "@p2", "@p3", "@p4", "@p5"];
    JoinSix(",", "@p0", "@p1", "@p2", "@p3", "@p4", "@p5");
  }

  /** Inserting a fully populated event names all six columns and binds each
      argument to the placeholder in the same position. */
  lemma InsertEvent(id: string, title: string, start: Int64, end: Int64, description: string, appId: string)
    ensures Insert(EventEntity, Some(FullEvent(id, title, start, end, description, appId))) ==
      Success(Statement("insert into " + "Events" + " (" + ("event_id" + "," + "title" + "," + "start_time" + "," + "end_time" + "," + "description" + "," + "app_key")
                        + ") values (" + ("@p0" + "," + "@p1" + "," + "@p2" + "," + "@p3" + "," + "@p4" + "," + "@p5") + ");",
        [Param("@p0", Text(id)), Param("@p1", Text(title)), Param("@p2", Long(start)),
         Param("@p3", Long(end)), Param("@p4", Text(description)), Param("@p5", Text(appId))]))
  {
    var t := FullEvent(id, title, start, end, description, appId);
    EventDescriptor();
    EventColumnList();
    EventPlaceholderList();
    InsertMeaning(EventEntity, Some(t));
    SmallPlaceholders();
    assert Bindings(t, Indices(6)) ==
      [Param("@p0", Text(id)), Param("@p1", Text(title)), Param("@p2", Long(start)),
       Param("@p3", Long(end)), Param("@p4", Text(description)), Param("@p5", Text(appId))];
  }

  /** An event with any null property, such as `new Event(appId: k)`, is never inserted. */
  lemma InsertPartialEvent(t: Instance)
    requires Fits(EventEntity, t) && !AllPresent(t)
    ensures Insert(EventEntity, Some(t)) == Failure(NullValue)
  {
    EventDescriptor();
    InsertRejectsNull(EventEntity, Some(t));
  }

  /** The row an event insert stores reads back as the same event. */
  lemma EventInsertThenRead(id: string, title: string, start: Int64, end: Int64, description: string, appId: string)
    ensures var t := FullEvent(id, title, start, end, description, appId);
      && Insert(EventEntity, Some(t)).Success?
      && Reader.StoredRow(ColumnNames(EventEntity), Placeholders(6), Insert(EventEntity, Some(t)).value.params).Some?
      && Reader.Materialize(EventEntity,
           Reader.StoredRow(ColumnNames(EventEntity), Placeholders(6), Insert(EventEntity, Some(t)).value.params).value)
         == Success(t)
  {
    EventDescriptor();
    Reader.InsertThenRead(EventEntity, FullEvent(id, title, start, end, description, appId));
  }

  /** Only `event_id` is a key: a non-null `EventId` is the one key chosen. */
  lemma EventKeyChoice(t: Instance)
    requires Fits(EventEntity, t) && t[0].Some?
    ensures Chosen(EventEntity, t, KeysOnly, 0) == [0]
  {
    NothingChosen(EventEntity, t, KeysOnly, 1);
  }

  lemma FullEventChoices(t: Instance)
    requires Fits(EventEntity, t) && AllPresent(t)
    ensures Chosen(EventEntity, t, NonKeys, 0) == [1, 2, 3, 4, 5]
    ensures Chosen(EventEntity, t, KeysOnly, 0) == [0]
  {
    EventBasics();
    EventKeyChoice(t);
    EverythingChosen(EventEntity, t, NonKeys, 1);
    NonKeyIndices();
  }

  lemma NonKeyIndices()
    ensures Range(1, 6) == [1, 2, 3, 4, 5]
  {
    assert Range(5, 6) == [5];
    assert Range(4, 6) == [4, 5];
    assert Range(3, 6) == [3, 4, 5];
    assert Range(2, 6) == [2, 3, 4, 5];
  }

  lemma EventKeyClause()
    ensures DecoratedAt(EventEntity, [0])
    ensures WhereClause(Equalities(EventEntity, [0])) == " where " + "event_id" + " = " + "@p0"
  {
    OneEquality(EventEntity, 0);
    assert Placeholder(0) == "@p0";
  }

  lemma FullEventUpdateBindings(id: string, title: string, start: Int64, end: Int64, description: string, appId: string)
    ensures var t := FullEvent(id, title, start, end, description, appId);
      && PresentAt(t, [1, 2, 3, 4, 5]) && PresentAt(t, [0])
      && Bindings(t, [1, 2, 3, 4, 5]) + Bindings(t, [0]) ==
        [Param("@p1", Text(title)), Param("@p2", Long(start)), Param("@p3", Long(end)),
         Param("@p4", Text(description)), Param("@p5", Text(appId)), Param("@p0", Text(id))]
  {
    SmallPlaceholders();
  }

  lemma FullEventEqualities()
    ensures DecoratedAt(EventEntity, [1, 2, 3, 4, 5])
    ensures Equalities(EventEntity, [1, 2, 3, 4, 5])
      == ["title = @p1", "start_time = @p2", "end_time = @p3", "description = @p4", "app_key = @p5"]
  {
    SmallPlaceholders();
    var sets := Equalities(EventEntity, [1, 2, 3, 4, 5]);
    assert sets[0] == "title" + " = " + "@p1" == "title = @p1";
    assert sets[1] == "start_time" + " = " + "@p2" == "start_time = @p2";
    assert sets[2] == "end_time" + " = " + "@p3" == "end_time = @p3";
    assert sets[3] == "description" + " = " + "@p4" == "description = @p4";
    assert sets[4] == "app_key" + " = " + "@p5" == "app_key = @p5";
  }

  lemma FullEventAssignments()
    ensures DecoratedAt(EventEntity, [1, 2, 3, 4, 5])
    ensures Join(", ", Equalities(EventEntity, [1, 2, 3, 4, 5]))
      == "title = @p1" + ", " + "start_time = @p2" + ", " + "end_time = @p3" + ", " + "description = @p4" + ", " + "app_key = @p5"
  {
    FullEventEqualities();
    JoinFive(", ", "title = @p1", "start_time = @p2", "end_time = @p3", "description = @p4", "app_key = @p5");
  }

  /** The controller updates a complete event read back from the store: every
      non-key column is assigned in declaration order and the key filters, its
      placeholder bound last. */
  lemma UpdateFullEvent(id: string, title: string, start: Int64, end: Int64, description: string, appId: string)
    ensures Update(EventEntity, Some(FullEvent(id, title, start, end, description, appId))) ==
      Success(Statement("update " + "Events" + " set "
                        + ("title = @p1" + ", " + "start_time = @p2" + ", " + "end_time = @p3" + ", " + "description = @p4" + ", " + "app_key = @p5")
                        + (" where " + "event_id" + " = " + "@p0") + ";",
        [Param("@p1", Text(title)), Param("@p2", Long(start)), Param("@p3", Long(end)),
         Param("@p4", Text(description)), Param("@p5", Text(appId)), Param("@p0", Text(id))]))
  {
    var t := FullEvent(id, title, start, end, description, appId);
    EventBasics();
    FullEventChoices(t);
    FullEventAssignments();
    UpdateMeaning(EventEntity, Some(t));
    EventKeyClause();
    FullEventUpdateBindings(id, title, start, end, description, appId);
  }

  // ---------------------------------------------------------------------
  // AppId

  /** `[DataModel("AppIds")] class AppId` with its one key property. */
  const AppIdEntity: Entity := Entity(Some("AppIds"), [Field(TextKind, Some(Column("app_key", true)))])

  /** `new AppId()`: `AppKey` keeps its `null` initializer. */
  function NewAppId(): Instance {
    [None]
  }

  /** `new AppId(appKey)`, the argument defaulting to `null`. */
  function AppIdOf(appKey: Option<string>): Instance {
    [TextSlot(appKey)]
  }

  /** The `AppId` class maps to table `AppIds`, and its only column `app_key`
      is its primary key. */
  lemma AppIdDescriptor()
    ensures WellFormed(AppIdEntity) && HasKey(AppIdEntity)
    ensures AppIdEntity.table == Some("AppIds")
    ensures ColumnNames(AppIdEntity) == ["app_key"]
    ensures forall i :: 0 <= i < |AppIdEntity.fields| ==> IsKey(AppIdEntity.fields[i])
  {
    assert IsKey(AppIdEntity.fields[0]);
  }

  /** Both constructors build objects of the class; the parameterless one is the
      all-null template and the other one gives back its argument. */
  lemma AppIdConstructors(appKey: Option<string>)
    ensures Conforms(AppIdEntity, NewAppId()) && AllAbsent(NewAppId())
    ensures AppIdOf(None) == NewAppId()
    ensures Conforms(AppIdEntity, AppIdOf(appKey)) && TextOf(AppIdOf(appKey)[0]) == appKey
    ensures appKey.Some? ==> AllPresent(AppIdOf(appKey))
  {
  }

  /** `Select(new AppId())` reads the whole `AppIds` table. */
  lemma SelectAllAppIds()
    ensures Select(AppIdEntity, Some(NewAppId())) == Success(Statement("select * from AppIds;", []))
  {
    BuilderSpec.SelectWithoutFilter(AppIdEntity, Some(NewAppId()));
    assert "select * from " + "AppIds" + ";" == "select * from AppIds;";
  }

  lemma AppIdChoices(k: string)
    ensures Chosen(AppIdEntity, AppIdOf(Some(k)), Every, 0) == [0]
    ensures Chosen(AppIdEntity, AppIdOf(Some(k)), KeysOnly, 0) == [0]
    ensures Placeholder(0) == "@p0"
  {
  }

  /** The controller's key check `Select(new AppId(k))` looks the key up. */
  lemma AppIdLookup(k: string)
    ensures Select(AppIdEntity, Some(AppIdOf(Some(k)))) ==
      Success(Statement("select * from " + "AppIds" + (" where " + "app_key" + " = " + "@p0") + ";", [Param("@p0", Text(k))]))
  {
    AppIdChoices(k);
    SelectOneFilter(AppIdEntity, AppIdOf(Some(k)), 0);
  }

  /** `Insert(new AppId(k))`, the key registration, lists one column and one placeholder. */
  lemma AppIdInsert(k: string)
    ensures Insert(AppIdEntity, Some(AppIdOf(Some(k)))) ==
      Success(Statement("insert into " + "AppIds" + " (" + "app_key" + ") values (" + "@p0" + ");", [Param("@p0", Text(k))]))
  {
    var t := AppIdOf(Some(k));
    AppIdChoices(k);
    InsertMeaning(AppIdEntity, Some(t));
    assert ColumnNames(AppIdEntity) == ["app_key"] && Placeholders(1) == ["@p0"];
    assert Bindings(t, Indices(1)) == [Param("@p0", Text(k))];
  }

  /** `Delete(new AppId(k))` deletes by the key. */
  lemma AppIdDelete(k: string)
    ensures Delete(AppIdEntity, Some(AppIdOf(Some(k)))) ==
      Success(Statement("delete from " + "AppIds" + (" where " + "app_key" + " = " + "@p0"), [Param("@p0", Text(k))]))
  {
    AppIdChoices(k);
    AppIdDescriptor();
    DeleteOneKey(AppIdEntity, AppIdOf(Some(k)), 0);
    assert Placeholder(0) == "@p0";
  }

  /** `Update(new AppId(k))` has an empty SET list: the text has nothing between
      `set ` and ` where `. */
  lemma AppIdUpdate(k: string)
    ensures Update(AppIdEntity, Some(AppIdOf(Some(k)))) ==
      Success(Statement("update " + "AppIds" + " set " + (" where " + "app_key" + " = " + "@p0") + ";", [Param("@p0", Text(k))]))
  {
    AppIdChoices(k);
    AppIdDescriptor();
    BuilderProperties.UpdateOnlyKey(AppIdEntity, AppIdOf(Some(k)), 0);
    assert Placeholder(0) == "@p0";
  }

  /** Since the only column of `AppId` is its key, every update of an `AppId`
      has an empty SET list. */
  lemma AppIdUpdateHasEmptySet(t: Instance)
    requires Fits(AppIdEntity, t)
    ensures PresentAt(t, Chosen(AppIdEntity, t, KeysOnly, 0)) && DecoratedAt(AppIdEntity, Chosen(AppIdEntity, t, KeysOnly, 0))
    ensures var keys := Chosen(AppIdEntity, t, KeysOnly, 0);
      Update(AppIdEntity, Some(t)) ==
        Success(Statement("update AppIds set " + WhereClause(Equalities(AppIdEntity, keys)) + ";", Bindings(t, keys)))
  {
    AppIdDescriptor();
    BuilderProperties.UpdateEmptySet(AppIdEntity, t);
    assert "update " + "AppIds" + " set " == "update AppIds set ";
  }
}
