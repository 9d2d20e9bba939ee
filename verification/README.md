# DataService SQL mapper — a Dafny model

The calendar microservice keeps its data in MySQL. It reaches the tables through
`DataService`, a small reflection-driven mapper. An entity class carries a
`DataModelAttribute` naming its table. Each of its properties may carry a
`ColumnAttribute` giving the column name and whether that column is a primary
key. From any object of such a class, the four generic operations build one
parameterised SQL statement:

- `Select` filters on every non-null property (`where a = @x and b = @y`). It
  then turns every row the reader yields into a new object.
- `Insert` lists every property. A null property throws.
- `Update` assigns every non-null non-key property (`set a = @x, b = @y`) and
  filters on the non-null key properties.
- `Delete` filters on the non-null key properties.

The two entity classes are `Event` (table `Events`, key `event_id`) and `AppId`
(table `AppIds`, key `app_key`).

The model works as follows:

- An entity class is a descriptor (`Metadata.Entity`): the optional table name
  and, for each property in declaration order, its declared type and its
  optional column attribute.
- An object is a sequence of optional values. `None` is a null property.
- Each builder is a pure function returning either the statement (text plus
  ordered parameter list) or the error that the C# exception stands for
  (`Builders.Error`).
- The read side (`Reader`) takes the rows of the executed query as a
  parameter.

Each builder is proved equal to an independent reference statement
(`BuilderSpec`), defined with a plain separator join rather than the C#
`trigger` flag. The properties the mapper relies on follow from that:

- no placeholder is bound twice, so `parameterDict.Add` never throws;
- values reach only the parameter list, never the SQL text;
- `Delete` reads only the key properties;
- a stored insert reads back as the inserted object.

Concrete statements for `Event` and `AppId` are derived from the generic ones
(`Models`).

The C# code emits `@` followed by a fresh GUID as each parameter name. The model
names the parameter of the property at index `i` `@p<i>` instead, and proves
these names injective (`Decimal.ShowInjective`). That is the only property of
the GUIDs the mapper depends on.

Behaviours of the code that the model reproduces as written:

- a null key property is dropped from the WHERE clause, not rejected. With every
  key null, `Delete` and `Update` have no WHERE clause at all;
- `Update` accepts an empty SET list, giving `update T set  where k = @p;` for
  an `AppId`;
- `Update` with a null object gives `update T set ;`;
- `Delete`'s text has no trailing `;`;
- `Insert` and `Delete` test the object for null before the table attribute.
  `Update` tests the table attribute, then the presence of a key, then the
  object.

## Model

| member | source | states |
|---|---|---|
| Metadata.Chosen | SRC/Services/DataService.cs:40-62 | The properties a loop writes are exactly the non-null ones in its scope. Each appears once, in declaration order. |
| Metadata.ChosenIgnoresValues | SRC/Services/DataService.cs:42 | Which properties a loop writes depends only on which properties in scope are null, never on their values. |
| Metadata.NothingChosen | SRC/Services/DataService.cs:36-63 | With no non-null property in scope, a loop writes nothing. |
| Metadata.EverythingChosen | SRC/Services/DataService.cs:221-245 | With every property in scope non-null, a loop writes all of them in declaration order. |
| Decimal.ShowInjective | SRC/Services/DataService.cs:58 | Distinct indices give distinct parameter names, standing in for the freshness of each GUID. |
| BuilderProperties.PlaceholderInjective | SRC/Services/DataService.cs:58-60 | Two properties never share a placeholder. |
| BuilderProperties.BindingsDistinct | SRC/Services/DataService.cs:243-268 | Two loops over disjoint property lists add parameters with pairwise distinct names. |
| BuilderProperties.SelectPlaceholdersDistinct | SRC/Services/DataService.cs:58-60 | Every name `Select` adds to `parameterDict` is new, so `Add` never throws. |
| BuilderProperties.InsertPlaceholdersDistinct | SRC/Services/DataService.cs:159-161 | Every name `Insert` adds to `parameterDict` is new. |
| BuilderProperties.UpdatePlaceholdersDistinct | SRC/Services/DataService.cs:241-268 | The SET loop and the key loop of `Update` never add the same name twice. |
| BuilderProperties.DeletePlaceholdersDistinct | SRC/Services/DataService.cs:343-345 | Every name `Delete` adds to `parameterDict` is new. |
| BuilderProperties.PlaceholdersDistinct | SRC/Services/DataService.cs:58-60 | For all four statements, a successful build has a parameter list without duplicate names. |
| BuilderSpec.AppendEqualitiesMeaning | SRC/Services/DataService.cs:39-62 | The `trigger` loop appends the lead and then `col = @p` joined by the separator, one per non-null property in scope, and binds each value. It throws exactly when such a property has no column attribute. |
| BuilderSpec.SetListMeaning | SRC/Services/DataService.cs:220-245 | Update's SET loop appends the `, `-joined assignments of the non-null non-key properties and binds their values. It throws on an undecorated one. |
| BuilderSpec.WhereListMeaning | SRC/Services/DataService.cs:247-270 | The key loop appends the WHERE clause over the non-null keys, or nothing when all keys are null. It never throws. |
| BuilderSpec.KeysAreDecorated | SRC/Services/DataService.cs:204 | Key properties always carry a column attribute, so the key loops' "Invalid DataModel" branch is unreachable. |
| BuilderSpec.AppendColumnsMeaning | SRC/Services/DataService.cs:138-167 | On a fully decorated, fully non-null object, the insert loop yields the comma-joined column names, the comma-joined placeholders and one parameter per property, all in declaration order. |
| BuilderSpec.AppendColumnsRejects | SRC/Services/DataService.cs:141-166 | A null property makes the insert loop throw: "Null Value Provided", or "Invalid DataModel" at an earlier undecorated property. |
| BuilderSpec.SelectMeaning | SRC/Services/DataService.cs:24-65 | No table attribute throws. A null template selects the whole table. Otherwise the text is `select * from T`, the WHERE clause over the non-null properties and `;`, with their values bound; it throws when one of them is undecorated. |
| BuilderSpec.SelectWithoutFilter | SRC/Services/DataService.cs:34-65 | An all-null template, such as a freshly constructed entity, selects the whole table with no parameters. |
| BuilderSpec.SelectOneFilter | SRC/Services/DataService.cs:36-65 | A template with a single non-null decorated property filters on that column alone and binds its value. |
| BuilderSpec.SelectParameters | SRC/Services/DataService.cs:40-61 | `Select` succeeds iff the class has a table and every non-null property is decorated. Its parameters are exactly the non-null properties' values, in order. |
| BuilderSpec.InsertMeaning | SRC/Services/DataService.cs:121-170 | A null object throws first, then a missing table. A complete object gives `insert into T (c1,...,cn) values (@p0,...);` with every value bound in column order. |
| BuilderSpec.InsertRejectsNull | SRC/Services/DataService.cs:121-166 | No statement is produced for a null object or for an object with any null property. On a decorated class the error is the null-value one. |
| BuilderSpec.UpdateMeaning | SRC/Services/DataService.cs:198-273 | The checks run in order: table, primary key, then object. The text is `update T set `, the SET list over the non-null non-keys, the WHERE clause over the non-null keys, and `;`. The SET parameters come before the key ones. |
| BuilderSpec.DeleteMeaning | SRC/Services/DataService.cs:300-347 | The checks run in order: null object, table, primary key. The text is `delete from T` and the WHERE clause over the non-null keys, with no `;`. |
| BuilderSpec.DeleteOneKey | SRC/Services/DataService.cs:322-347 | With one non-null key, `Delete` filters on that key alone. |
| BuilderProperties.InsertNeedsColumns | SRC/Services/DataService.cs:139-147 | A class with an undecorated property can never be inserted. |
| BuilderProperties.AppendColumnsFailsAt | SRC/Services/DataService.cs:139-166 | The insert loop fails whenever an undecorated property lies ahead. |
| BuilderProperties.SelectTextIgnoresValues | SRC/Services/DataService.cs:40-61 | Values never enter the SQL text. Two templates with the same null pattern give the same text, the same outcome and the same parameter names. |
| BuilderProperties.AppendColumnsIgnoresValues | SRC/Services/DataService.cs:139-167 | The insert loop's column and value lists depend only on the null pattern. |
| BuilderProperties.InsertTextIgnoresValues | SRC/Services/DataService.cs:139-170 | Same for `Insert`. |
| BuilderProperties.UpdateTextIgnoresValues | SRC/Services/DataService.cs:217-271 | Same for `Update`. |
| BuilderProperties.BindingsSameNames | SRC/Services/DataService.cs:243-268 | The parameters of two objects over the same properties differ only in their values. |
| BuilderProperties.DeleteTextIgnoresValues | SRC/Services/DataService.cs:325-347 | Same for `Delete`. |
| BuilderProperties.DeleteIgnoresNonKeys | SRC/Services/DataService.cs:310-347 | `Delete` reads only key properties. Objects agreeing on their keys give the same statement. |
| BuilderProperties.AbsentKeysDeleteAll | SRC/Services/DataService.cs:322-347 | A null key is dropped, not rejected. With every key null, `Delete` has no WHERE clause and would remove every row. |
| BuilderProperties.AbsentKeysUpdateAll | SRC/Services/DataService.cs:247-273 | With every key null, a successful `Update` ends right after its SET list, so it would rewrite every row. |
| BuilderProperties.UpdateEmptySet | SRC/Services/DataService.cs:215-273 | With no non-null non-key property, `Update` still succeeds, with an empty SET list. |
| BuilderProperties.UpdateOnlyKey | SRC/Services/DataService.cs:215-273 | A template holding only a key gives `update T set  where k = @p;`. |
| Reader.MaterializeFrom | SRC/Services/DataService.cs:87-98 | The property loop succeeds iff every property is decorated and its column is in the row. Each property then takes the row's value for its column; the first failure is the attribute error or the missing-column error. |
| Reader.Materialize | SRC/Services/DataService.cs:84-100 | One row becomes one object of the class, every property non-null and read from its own column. |
| Reader.MaterializeAll | SRC/Services/DataService.cs:82-103 | The row loop is all-or-nothing: one object per row in row order, or a failure when any row fails. |
| Reader.RunSelect | SRC/Services/DataService.cs:15-111 | `Select` returns a list iff the statement builds and every returned row materializes. The list has one object per row, with each property equal to the row's column. Otherwise it returns null, never a partial list. |
| Reader.BoundFinds | SRC/Services/DataService.cs:175-178 | With distinct names, looking up a placeholder finds the value added for it. |
| Reader.StoredRowHolds | SRC/Services/DataService.cs:170-180 | An executed insert stores, under each column, the value bound to the placeholder in the same position. |
| Reader.InsertThenRead | SRC/Services/DataService.cs:121-170 | Insert then read is the identity. The insert text lists the columns and their placeholders in the same order, and the row it stores materializes back to exactly the inserted object, on a class with a table, all columns and distinct column names. |
| Models.EventDescriptor | SRC/Models/Event.cs:3-17 | `Event` maps to `Events`, with the six columns in declaration order, all distinct, and `event_id` the only key. |
| Models.EventConstructors | SRC/Models/Event.cs:19-32 | The parameterless constructor gives the all-null object. The other constructor stores each argument in its property with the declared type. |
| Models.SelectAllEvents | SRC/Models/Event.cs:3-4 | `Select(new Event())` is `select * from Events;` with no parameters. |
| Models.SelectEventsOfApp | SRC/Models/Event.cs:16-17 | An event template holding only an app key filters on `app_key` and binds that key once. |
| Models.DeleteEvent | SRC/Models/Event.cs:6-7 | Deleting an event filters on `event_id` alone, whatever its other properties hold. |
| Models.InsertEvent | SRC/Models/Event.cs:3-17 | A complete event inserts all six columns, binding each argument to the placeholder of its column. |
| Models.InsertPartialEvent | SRC/Services/DataService.cs:163-166 | An event with any null property is never inserted; the error is the null-value one. |
| Models.EventInsertThenRead | SRC/Models/Event.cs:3-17 | A stored complete event reads back as the same event. |
| Models.UpdateFullEvent | SRC/Models/Event.cs:3-17 | Updating a complete event assigns the five non-key columns in order and filters on `event_id`, whose parameter is bound last. |
| Models.AppIdDescriptor | SRC/Models/AppId.cs:3-7 | `AppId` maps to `AppIds`, and its only column `app_key` is its key. |
| Models.AppIdConstructors | SRC/Models/AppId.cs:9-17 | The parameterless constructor gives the null object. The other constructor stores its argument. |
| Models.SelectAllAppIds | SRC/Models/AppId.cs:3-4 | `Select(new AppId())` is `select * from AppIds;`. |
| Models.AppIdLookup | SRC/Models/AppId.cs:6-7 | Selecting `new AppId(k)` filters on `app_key = @p0`, with `k` bound. |
| Models.AppIdInsert | SRC/Models/AppId.cs:6-7 | Inserting `new AppId(k)` lists the one column and the one placeholder. |
| Models.AppIdDelete | SRC/Models/AppId.cs:6-7 | Deleting `new AppId(k)` filters on the key. |
| Models.AppIdUpdate | SRC/Models/AppId.cs:6-7 | Updating `new AppId(k)` gives an empty SET list followed directly by the key filter. |
| Models.AppIdUpdateHasEmptySet | SRC/Models/AppId.cs:6-7 | Every `AppId` update, whatever the object, has an empty SET list, because the class's only column is its key. |

## Left out

- The MySQL connection, command execution and reader cursor (DataService.cs:19-21, 67-75, 172-180, 275-283, 350-358) are I/O. The executed query's rows are a parameter of `Reader.RunSelect`, and an executed insert is modelled by `Reader.StoredRow`.
- `Console.WriteLine` in the catch blocks is logging and is left out. The exceptions that `Insert`, `Update` and `Delete` swallow become the `Failure` values of the builders.
- Database-side failures are not modelled: connection errors, SQL syntax errors such as `update T set ;`, and constraint violations.
- Reader.Materialize: `Convert.ChangeType` is the identity, and a `DBNull` column value is not modelled. Every materialized property is non-null, holding the row's value.
- Reader.MaterializeFrom: a column is found only under its exact name. `MySqlDataReader` resolves a field name through `GetOrdinal`, which falls back to a case-insensitive match; that library behaviour is not modelled, so a row whose column differs only in letter case gives `MissingColumn` here.
- Reader.RunSelect: the "Model Instance Null" branch is not modelled, because the entity classes all have a public parameterless constructor. `GetConstructors().FirstOrDefault()` is assumed to pick that constructor.
- The GUID parameter names are replaced by `@p` followed by the property index. The only property of the GUIDs the mapper uses is that they are distinct, and that is proved for the replacement.
- Reflection (`GetProperties`, `GetCustomAttribute`) is replaced by the entity descriptor. Property order is the declaration order of the descriptor.
- `DataService`'s constructor and `ConnectionString` only configure the connection and are left out.
- The model fixes the property types at `string?` and `long?`, the only ones the two entity classes declare. `long` is the 64-bit `Metadata.Int64`.
- The web controller, the secret service and the program entry point are not part of this model. The `Models` lemmas show the statements those callers' objects produce.
