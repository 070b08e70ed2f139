# Dapper.SimpleCRUD in Dafny

Dapper.SimpleCRUD is a set of extension methods on a database connection
that write the SQL for the usual entity operations: get by id, list (by a
condition object, by a raw `where` clause, or a page at a time), insert,
update, delete by entity, by id or by clause, and count. It reads an
entity class's properties and their attributes (`[Key]`, `[Table]`,
`[Column]`, `[Editable]`, `[ReadOnly]`, `[Required]`) to decide which
properties are columns, which is the key, what is written on insert and
on update, and what the table and columns are called. A process-wide
dialect (SQL Server, PostgreSQL, SQLite or MySQL) fixes how names are
quoted, how a new identity is read back and how a page is selected. An
add-on, the fluent table map, lets a program register per-class mappers
that rename tables and columns and set the same flags in code.

This model covers the SQL generation, not the database:

- `Dialects`: the four dialects, each one's quoting, identity query and
  paging template. Templates are held as literal pieces and named holes,
  so that filling them can be reasoned about.
- `Metadata`: CLR types, properties with their attributes, entity types,
  and the property filters (id, scaffoldable, updateable, insertable) and
  names (table, column).
- `SqlText`: the pure specification of every clause and statement,
  with the lemmas that say what each one means.
- `Paging`: filling a paging template by successive `Replace` calls.
- `Guids`: the sequential Guid and its text form.
- `Inserting`: the key handling that ends `Insert`, as a function over
  the entity's values.
- `TextBuilder`: a `StringBuilder` class with `Append` and `Remove`.
- `Crud`: the static class as an object. Its four dialect fields change
  together in `SetDialect`. The `Build*` loops append to a caller's
  builder. Every public operation returns the statement and its
  parameters that it would hand to Dapper, or the exception it throws.
  Each method is proved to produce exactly the `SqlText` specification.
- `FluentMap`: the column-settings objects, the table mappers and the
  registry with its three resolvers.
- `Fixtures`: entity classes from the test suite, and what the filters
  and generators make of them.

Two points where the model follows the code rather than the documentation:

- A Guid key is written back to the entity only when it was
  `Guid.Empty`. Any other Guid, including one the caller set, is kept.
- A `[Key]` that is neither a Guid nor `[Required]` is left out of the
  insert even when it is a string. The `City` fixture (a string key) shows
  this.

## Model

| member | source | states |
|---|---|---|
| Dialects.ProfileFor | Dapper.SimpleCRUD/SimpleCRUD.cs:41-70 | each dialect's settings name that dialect, and only SQL Server quotes with brackets |
| Dialects.NameIdentifiesDialect | Dapper.SimpleCRUD/SimpleCRUD.cs:33-36 | the dialect name `GetDialect` reports identifies the dialect: two names are equal exactly when the dialects are |
| Dialects.ProfilesAreComplete | Dapper.SimpleCRUD/SimpleCRUD.cs:41-70 | every dialect sets a non-empty identity query, and its settings hold that dialect's paging template, which is non-empty |
| Dialects.EncapsulateIsFormat | Dapper.SimpleCRUD/SimpleCRUD.cs:756-759 | `Encapsulate` is formatting the quoting string with the word in place of `{0}` |
| Dialects.EncapsulateRoundTrip | Dapper.SimpleCRUD/SimpleCRUD.cs:756-759 | stripping the quoting from an encapsulated word gives the word back; brackets add exactly `[` in front and `]` behind |
| Dialects.EncapsulateInjective | Dapper.SimpleCRUD/SimpleCRUD.cs:756-759 | different words stay different after `Encapsulate` |
| Dialects.Marker | Dapper.SimpleCRUD/SimpleCRUD.cs:49-67 | every placeholder of a paging template opens with `{` and holds no other `{` |
| Dialects.MarkersDiffer | Dapper.SimpleCRUD/SimpleCRUD.cs:232-237 | two different placeholders already differ in their second character, so replacing one never touches another |
| Dialects.LimitOffsetPiecesWellFormed | Dapper.SimpleCRUD/SimpleCRUD.cs:49 | the PostgreSQL and SQLite template's literal text holds no brace |
| Dialects.MySQLPiecesWellFormed | Dapper.SimpleCRUD/SimpleCRUD.cs:61 | the MySQL template's literal text holds no brace |
| Dialects.RowNumberPiecesWellFormed | Dapper.SimpleCRUD/SimpleCRUD.cs:67 | the SQL Server template's literal text holds no brace |
| Dialects.TemplateIsPieces | Dapper.SimpleCRUD/SimpleCRUD.cs:41-70 | every dialect's paging template is well formed: braces occur only in its placeholders |
| Dialects.RowNumberBandsTile | Dapper.SimpleCRUD/SimpleCRUD.cs:67 | the SQL Server row-number band of a page holds exactly `rowsPerPage` rows, and the next page's band starts right after it |
| Paging.ReplaceSkipsOtherMarker | Dapper.SimpleCRUD/SimpleCRUD.cs:232-237 | replacing one placeholder leaves a different placeholder in front of it untouched |
| Paging.ReplaceIsSubst | Dapper.SimpleCRUD/SimpleCRUD.cs:232-237 | one `Replace` on a well-formed template fills exactly that placeholder's holes, and the result stays well formed |
| Paging.SubstAllIsFill | Dapper.SimpleCRUD/SimpleCRUD.cs:232-237 | filling the six placeholders one after another fills every hole with its argument |
| Paging.NumberIsBraceFree | Dapper.SimpleCRUD/SimpleCRUD.cs:234-235 | a page number or page size written as text holds no brace |
| Paging.ReplaceChainFills | Dapper.SimpleCRUD/SimpleCRUD.cs:224-237 | the chain of six `Replace` calls on a dialect's template yields that template with every placeholder filled, when no argument holds a brace |
| Paging.FillAppend | Dapper.SimpleCRUD/SimpleCRUD.cs:232-237 | filling a template made of two parts fills each part in turn |
| Paging.LimitOffsetClause | Dapper.SimpleCRUD/SimpleCRUD.cs:49 | a filled PostgreSQL or SQLite page query ends `LIMIT r OFFSET ((p-1) * r)`, with the page number `p` and the page size `r` in decimal |
| Paging.MySQLClause | Dapper.SimpleCRUD/SimpleCRUD.cs:61 | a filled MySQL page query ends `LIMIT ((p-1) * r),r` |
| Paging.RowNumberClause | Dapper.SimpleCRUD/SimpleCRUD.cs:67 | a filled SQL Server page query ends `BETWEEN ((p - 1) * r + 1) AND (p * r)` |
| Paging.OffsetMatchesBand | Dapper.SimpleCRUD/SimpleCRUD.cs:49-67 | the window each dialect's paging clause selects (skip `(p - 1) * r` rows and take `r`, or the row-number band) is the same in all four dialects, holds `r` rows, and the next page starts right after it |
| Metadata.SimpleTypeCases | Dapper.SimpleCRUD/SimpleCRUD.cs:903-929 | `TimeSpan` is not simple, nullable or not; a class is never simple; wrapping a simple type in `Nullable` keeps it simple |
| Metadata.IdPropertiesMembers | Dapper.SimpleCRUD/SimpleCRUD.cs:695-699 | `IdProperties`: the keys are the `[Key]` properties when there is one, and otherwise the properties named exactly `Id` |
| Metadata.IdIsCaseSensitive | Dapper.SimpleCRUD/SimpleCRUD.cs:695-699 | with no `[Key]` and no property named exactly `Id`, the entity has no key |
| Metadata.ScaffoldableMembers | Dapper.SimpleCRUD/SimpleCRUD.cs:630-651 | `ScaffoldableProperties`: a property is a column exactly when it is not `[Editable(false)]` and is simple or `[Editable(true)]` |
| Metadata.UpdateableMembers | Dapper.SimpleCRUD/SimpleCRUD.cs:672-683 | `UpdateableProperties`: a property is updated exactly when it is a column, is not a key, is not named `Id` and is not `[ReadOnly(true)]` |
| Metadata.InsertableMembers | Dapper.SimpleCRUD/SimpleCRUD.cs:601-620 | `InsertableProperties`: a property is inserted exactly when it is a column that none of the skip rules removes |
| Metadata.InsertedKeysAreSupplied | Dapper.SimpleCRUD/SimpleCRUD.cs:606-613 | a key or `Id` property is inserted only when it is a Guid or `[Required]` |
| Metadata.UpdateableAreInsertable | Dapper.SimpleCRUD/SimpleCRUD.cs:672-683 | every updated property is also inserted |
| Metadata.BareTableName | Dapper.SimpleCRUD/SimpleCRUD.cs:715-741 | `TableName`: the table is the class name, or the `[Table]` name, prefixed by its schema and a dot when there is a schema |
| Metadata.BracketTableNameSplits | Dapper.SimpleCRUD/SimpleCRUD.cs:715-741 | with brackets, schema and table are quoted separately and joined by one dot |
| Metadata.ColumnName | Dapper.SimpleCRUD/SimpleCRUD.cs:743-754 | the column is the stored name, bare or in brackets |
| Metadata.ColumnNameOverride | Dapper.SimpleCRUD/SimpleCRUD.cs:743-754 | a `[Column]` name replaces the property name, and then the property name no longer matters |
| SqlText.SelectItemAlias | Dapper.SimpleCRUD/SimpleCRUD.cs:535-547 | a select item starts with the column; a renamed column is aliased back to the property name with ` as `, and an unrenamed one is not |
| SqlText.SelectListSplits | Dapper.SimpleCRUD/SimpleCRUD.cs:535-547 | splitting the select list at commas gives back the items, one per property |
| SqlText.MatchByName | Dapper.SimpleCRUD/SimpleCRUD.cs:550-572 | the where clause uses the entity's own property of the same name when there is one, and the condition's property otherwise |
| SqlText.MatchFindsEntityProperty | Dapper.SimpleCRUD/SimpleCRUD.cs:550-572 | when names are unique, a condition is matched to the entity's column of that name |
| SqlText.WhereItemOwnProperty | Dapper.SimpleCRUD/SimpleCRUD.cs:550-572 | a condition on one of the entity's own properties reads `column = @Name` |
| SqlText.SetListExcludesKeys | Dapper.SimpleCRUD/SimpleCRUD.cs:520-532 | every assignment of the set list belongs to a column that is not a key, not `Id` and not read-only |
| SqlText.TrimSeparator | Dapper.SimpleCRUD/SimpleCRUD.cs:594-595 | a trailing ", " is removed once, and any other text is kept |
| SqlText.InsertListIsJoin | Dapper.SimpleCRUD/SimpleCRUD.cs:577-597 | the insert loop with its skips and final trim yields the kept names joined by ", " |
| SqlText.InsertListsAlign | Dapper.SimpleCRUD/SimpleCRUD.cs:577-620 | the column list and the value list name the same properties in the same order |
| SqlText.SingleKey | Dapper.SimpleCRUD/SimpleCRUD.cs:86-93 | an operation by id goes on exactly when there is one key, and throws the "no key" or "more than one key" message otherwise |
| SqlText.GetByIdShape | Dapper.SimpleCRUD/SimpleCRUDSQL.cs:14-40 | `GetByIdText`: the by-id query exists exactly when there is one key, throws the "no key" or "more than one key" message otherwise, and reads `Select <columns> from T where <key column> = @Id` |
| SqlText.DeleteByIdMatchesGetById | Dapper.SimpleCRUD/SimpleCRUDSQL.cs:148-174 | `DeleteByIdText`: the by-id delete succeeds together with the by-id query, throws its own "no key" or "more than one key" message otherwise, and reads `Delete from T where <key column> = @Id`, the same filter as the query |
| SqlText.ListWhereOnlyWithConditions | Dapper.SimpleCRUD/SimpleCRUD.cs:121-147 | `ListText`: a list query is the select head alone when there are no conditions, and otherwise the select head, ` where ` and, for conditions that are the entity's own properties with unique names, each condition's column compared with its parameter, joined by ` and ` |
| SqlText.DeleteListGuard | Dapper.SimpleCRUD/SimpleCRUD.cs:473-491 | a delete by clause goes ahead exactly when the lower-cased conditions contain `where` |
| SqlText.DeleteListAcceptsAnyCase | Dapper.SimpleCRUD/SimpleCRUD.cs:473-491 | `DeleteListText`: empty conditions throw the "requires a where clause" message; otherwise the delete goes ahead exactly when the conditions hold `where` with each letter in either case, and then deletes by the conditions as given; if not, it throws the "must contain the WHERE keyword" message |
| SqlText.OwnWhereList | Dapper.SimpleCRUD/SimpleCRUD.cs:550-572 | `WhereList`: with unique property names, the where clause over the entity's own properties compares each property's own column with the parameter of its name, joined by ` and ` |
| SqlText.IdWhereList | Dapper.SimpleCRUD/SimpleCRUD.cs:550-572 | the same for the key properties, the where clause of update and delete |
| SqlText.IdsAreNotUpdated | Dapper.SimpleCRUD/SimpleCRUD.cs:672-683 | no key is among the updated properties, so an update never changes the columns that pick its row |
| SqlText.UpdateTextReads | Dapper.SimpleCRUD/SimpleCRUDSQL.cs:101-123 | `UpdateText`: an update needs a key and otherwise throws the "must have at least one [Key] or Id" message; it reads `update T set c = @P, ... where k = @K and ...` over the updateable properties and the keys |
| SqlText.DeleteTextReads | Dapper.SimpleCRUD/SimpleCRUDSQL.cs:125-146 | `DeleteText`: a delete by entity needs a key and otherwise throws the same message; it reads `delete from T where k = @K and ...` over the keys |
| SqlText.CountMatchesList | Dapper.SimpleCRUD/SimpleCRUD.cs:503-516 | `RecordCountText` and `ListWhereText`: the count and the list by clause read the same table with the same conditions |
| SqlText.InsertedNamesArePlain | Dapper.SimpleCRUD/SimpleCRUD.cs:577-620 | with plain property names, every inserted column and parameter name is plain |
| SqlText.InsertTextIsJoin | Dapper.SimpleCRUD/SimpleCRUDSQL.cs:71-99 | the insert statement lists the inserted columns, then the same properties as parameters, each list joined by ", " |
| SqlText.InsertTextReads | Dapper.SimpleCRUD/SimpleCRUDSQL.cs:71-99 | `InsertText`: the insert statement reads `insert into T (cols) values (params)` |
| SqlText.PagedTextNeedsTemplate | Dapper.SimpleCRUD/SimpleCRUD.cs:211-212 | a page query throws the "not supported" exception exactly when the template is empty |
| SqlText.PagedTextGuards | Dapper.SimpleCRUD/SimpleCRUD.cs:211-220 | `PagedText`: past a template, a page below 1 throws "Page must be greater than 0" exactly; past that, a keyless entity throws the "at least one [Key]" message exactly; the query is built exactly when all three guards pass |
| SqlText.PagedTextFills | Dapper.SimpleCRUD/SimpleCRUD.cs:209-237 | a page query is the dialect's template with every placeholder filled by its argument |
| Guids.ToByte | Dapper.SimpleCRUD/SimpleCRUD.cs:770-775 | the byte cast keeps a value below 256 and otherwise keeps it modulo 256 |
| Guids.SplicedBytes | Dapper.SimpleCRUD/SimpleCRUD.cs:765-777 | `SequentialGuid`: the first six bytes come from the clock, in the order hour, day, month, year, second, minute, and the other ten from the random Guid |
| Guids.SameSecondSamePrefix | Dapper.SimpleCRUD/SimpleCRUD.cs:765-777 | two Guids made in the same second share their first six bytes and differ exactly when the random tails differ |
| Guids.ValidClockBytes | Dapper.SimpleCRUD/SimpleCRUD.cs:770-775 | `TimeBytes`: for a real date and time the six clock bytes are the hour, day, month, low byte of the year, second and minute, each stored exactly |
| Guids.NeverEmpty | Dapper.SimpleCRUD/SimpleCRUD.cs:765-777 | a sequential Guid made at a real date and time is never the empty Guid, because the month byte is never zero |
| Guids.HexOfShape | Dapper.SimpleCRUD/SimpleCRUD.cs:319 | each byte of a Guid's text is two lower-case hex digits |
| Guids.GuidTextShape | Dapper.SimpleCRUD/SimpleCRUD.cs:319 | `GuidText`: a Guid's text has 36 characters and no quote, so it is safe between the quotes of the appended select |
| Inserting.HandleKeyFacts | Dapper.SimpleCRUD/SimpleCRUD.cs:306-329 | `HandleKey`: the database supplies the key exactly for an int or long key that is zero, and then the identity query is appended; otherwise the entity's key is the result |
| Inserting.HandleGuidKey | Dapper.SimpleCRUD/SimpleCRUD.cs:307-320 | `GuidKey`: an empty Guid key is replaced by a new sequential Guid, and the statement then selects the key |
| Inserting.InsertKeyTypes | Dapper.SimpleCRUD/SimpleCRUD.cs:288-294 | an insert goes on only for an int, uint, long, ulong, short, ushort or Guid key type, nullable or not |
| Inserting.InsertGuards | Dapper.SimpleCRUD/SimpleCRUD.cs:280-285 | `Insert` fails on a missing or repeated key exactly as `InsertSql` does |
| Inserting.InsertExtendsInsertSql | Dapper.SimpleCRUD/SimpleCRUD.cs:296-305 | the statement `Insert` runs starts with the text `InsertSql` returns |
| Inserting.IdentityOnlyForZeroKeys | Dapper.SimpleCRUD/SimpleCRUD.cs:322-340 | `ToInt64` and `HandleKey`: the identity query is appended and the database's id returned exactly for an int or long key that converts to zero |
| Inserting.EmptyGuidReplaced | Dapper.SimpleCRUD/SimpleCRUD.cs:307-320 | after inserting with a Guid key, the entity's key is a new sequential Guid if it was empty, and is unchanged otherwise |
| Inserting.GuidKeyMustBeGuid | Dapper.SimpleCRUD/SimpleCRUD.cs:309 | a null key or an int key fails the Guid unboxing |
| Inserting.InsertChangesOnlyGuidKey | Dapper.SimpleCRUD/SimpleCRUD.cs:307-314 | an insert changes no value of the entity other than the key, and that one only from the empty Guid |
| Strings.JoinSplit | Dapper.SimpleCRUDFluentTableMap/SimpleCRUDFluentTableMap.cs:182 | joining the parts of a split by the separator gives back the text |
| Strings.SplitJoin | Dapper.SimpleCRUDFluentTableMap/SimpleCRUDFluentTableMap.cs:182 | splitting a join of separator-free parts gives back the parts |
| Strings.ContainsIff | Dapper.SimpleCRUD/SimpleCRUD.cs:477-478 | the search for a word succeeds exactly when the word occurs at some position |
| Strings.ToLower | Dapper.SimpleCRUD/SimpleCRUD.cs:477 | lower-casing keeps the length, turns each letter `A`-`Z` into the letter 32 code points above it, keeps every other character, and leaves no upper-case letter |
| Strings.NatToStringValue | Dapper.SimpleCRUD/SimpleCRUD.cs:234-235 | the decimal digits written for a natural number denote that number and have no leading zero |
| Strings.IntToString | Dapper.SimpleCRUD/SimpleCRUD.cs:234-235 | a number's text is non-empty digits with a leading minus sign exactly for a negative number, and reads back as the number |
| Strings.IntToStringInjective | Dapper.SimpleCRUD/SimpleCRUD.cs:234-235 | two numbers have the same text exactly when they are equal |
| Crud.SimpleCrud.constructor | Dapper.SimpleCRUD/SimpleCRUD.cs:19-24 | the static constructor selects SQL Server |
| Crud.SimpleCrud.SetDialect | Dapper.SimpleCRUD/SimpleCRUD.cs:41-70 | the four settings become those of the given dialect, together, and `GetDialect` then names it |
| Crud.SimpleCrud.BuildSelect | Dapper.SimpleCRUD/SimpleCRUD.cs:535-547 | the loop appends exactly the select list |
| Crud.SimpleCrud.BuildWhere | Dapper.SimpleCRUD/SimpleCRUD.cs:550-572 | the loop appends exactly the condition list, joined by ` and ` |
| Crud.SimpleCrud.BuildUpdateSet | Dapper.SimpleCRUD/SimpleCRUD.cs:520-532 | the loop appends exactly the set list |
| Crud.SimpleCrud.BuildInsertParameters | Dapper.SimpleCRUD/SimpleCRUD.cs:601-620 | the loop and its trim append exactly the inserted columns joined by ", " |
| Crud.SimpleCrud.BuildInsertValues | Dapper.SimpleCRUD/SimpleCRUD.cs:577-597 | the loop and its trim append exactly the inserted parameters joined by ", " |
| Crud.SimpleCrud.TrimTrailingSeparator | Dapper.SimpleCRUD/SimpleCRUD.cs:594-595 | the builder loses one trailing ", " and nothing else |
| Crud.SimpleCrud.AppendSelectHead | Dapper.SimpleCRUD/SimpleCRUDSQL.cs:27-30 | appends `Select`, the select list and ` from ` with the table |
| Crud.SimpleCrud.GetByIdSql | Dapper.SimpleCRUD/SimpleCRUDSQL.cs:14-40 | returns the by-id query, or the key exception |
| Crud.SimpleCrud.GetListSql | Dapper.SimpleCRUD/SimpleCRUDSQL.cs:42-68 | returns the list query for the condition object, or the key exception |
| Crud.SimpleCrud.InsertSql | Dapper.SimpleCRUD/SimpleCRUDSQL.cs:71-99 | returns the insert statement, or the key exception |
| Crud.SimpleCrud.AppendInsert | Dapper.SimpleCRUD/SimpleCRUD.cs:296-305 | builds the insert statement with the two loops |
| Crud.SimpleCrud.UpdateSql | Dapper.SimpleCRUD/SimpleCRUDSQL.cs:101-123 | returns the update statement `UpdateText`, whose `update T set ... where ...` form `UpdateTextReads` gives, or the key exception |
| Crud.SimpleCrud.DeleteSql | Dapper.SimpleCRUD/SimpleCRUDSQL.cs:125-146 | returns the delete-by-entity statement `DeleteText`, whose `delete from T where ...` form `DeleteTextReads` gives, or the key exception |
| Crud.SimpleCrud.DeleteByIdSql | Dapper.SimpleCRUD/SimpleCRUDSQL.cs:148-174 | returns the delete-by-id statement, or the key exception |
| Crud.SimpleCrud.Get | Dapper.SimpleCRUD/SimpleCRUD.cs:83-109 | runs the by-id query with `@id` bound to the id |
| Crud.SimpleCrud.GetList | Dapper.SimpleCRUD/SimpleCRUD.cs:121-147 | runs the list query with the condition object as parameters |
| Crud.SimpleCrud.GetListAll | Dapper.SimpleCRUD/SimpleCRUD.cs:190-193 | runs the list query with no conditions |
| Crud.SimpleCrud.GetListWhere | Dapper.SimpleCRUD/SimpleCRUD.cs:159-180 | runs the select head followed by the caller's clause |
| Crud.SimpleCrud.GetListPaged | Dapper.SimpleCRUD/SimpleCRUD.cs:209-243 | refuses an empty template, a page below 1 or a keyless entity, and otherwise runs the filled paging template |
| Crud.SimpleCrud.PagingSupported | Dapper.SimpleCRUD/SimpleCRUD.cs:211-212 | while the settings hold the dialect's profile, the paging template is that dialect's and is not empty, so the "not supported" exception of `GetListPaged` never happens |
| Crud.SimpleCrud.Insert | Dapper.SimpleCRUD/SimpleCRUD.cs:278-341 | runs the insert statement with the key handling, writes back an empty Guid key, and returns where the key comes from |
| Crud.SimpleCrud.ReplaceEmptyGuid | Dapper.SimpleCRUD/SimpleCRUD.cs:307-320 | unboxes the Guid key, replaces it when empty, and appends the select of the key |
| Crud.SimpleCrud.HandleInsertKey | Dapper.SimpleCRUD/SimpleCRUD.cs:306-329 | appends the key select or the identity query as the key type and value demand |
| Crud.SimpleCrud.Update | Dapper.SimpleCRUD/SimpleCRUD.cs:358-379 | runs the update statement with the entity as parameters |
| Crud.SimpleCrud.Delete | Dapper.SimpleCRUD/SimpleCRUD.cs:394-414 | runs the delete-by-entity statement with the entity as parameters |
| Crud.SimpleCrud.DeleteById | Dapper.SimpleCRUD/SimpleCRUD.cs:430-455 | runs the delete-by-id statement with `@id` bound to the id |
| Crud.SimpleCrud.DeleteList | Dapper.SimpleCRUD/SimpleCRUD.cs:473-491 | refuses empty conditions or conditions without `where`, and otherwise deletes by the clause |
| Crud.SimpleCrud.RecordCount | Dapper.SimpleCRUD/SimpleCRUD.cs:503-516 | counts the rows of the table that meet the clause |
| FluentMap.FluentSimpleIsCorePlusTimeSpan | Dapper.SimpleCRUDFluentTableMap/SimpleCRUDFluentTableMap.cs:57-84 | the add-on's simple types are the core's plus `TimeSpan` |
| FluentMap.FluentColumnProperties.constructor | Dapper.SimpleCRUDFluentTableMap/SimpleCRUDFluentTableMap.cs:98-104 | a new settings object uses the property name as column, has no alias, is editable exactly when the type is simple, and has every other flag off |
| FluentMap.FluentColumnProperties.WithColumnName | Dapper.SimpleCRUDFluentTableMap/SimpleCRUDFluentTableMap.cs:106-115 | an empty name is refused; otherwise the old column name becomes the alias and the new one the column |
| FluentMap.FluentColumnProperties.AsKey | Dapper.SimpleCRUDFluentTableMap/SimpleCRUDFluentTableMap.cs:117-121 | sets the key flag, changes nothing else, and returns the same object |
| FluentMap.FluentColumnProperties.AsRequired | Dapper.SimpleCRUDFluentTableMap/SimpleCRUDFluentTableMap.cs:122-126 | sets the required flag and nothing else |
| FluentMap.FluentColumnProperties.AsReadOnly | Dapper.SimpleCRUDFluentTableMap/SimpleCRUDFluentTableMap.cs:127-131 | sets the read-only flag and nothing else |
| FluentMap.FluentColumnProperties.AsNotMapped | Dapper.SimpleCRUDFluentTableMap/SimpleCRUDFluentTableMap.cs:132-136 | sets the not-mapped flag and nothing else |
| FluentMap.FluentColumnProperties.AsEditable | Dapper.SimpleCRUDFluentTableMap/SimpleCRUDFluentTableMap.cs:137-141 | sets the editable flag and nothing else |
| FluentMap.FluentColumnProperties.AsNotEditable | Dapper.SimpleCRUDFluentTableMap/SimpleCRUDFluentTableMap.cs:142-146 | clears the editable flag and nothing else |
| FluentMap.FluentColumnProperties.AsIgnoredInSelect | Dapper.SimpleCRUDFluentTableMap/SimpleCRUDFluentTableMap.cs:147-151 | sets the ignored-in-select flag and nothing else |
| FluentMap.FluentColumnProperties.AsIgnoredInUpdate | Dapper.SimpleCRUDFluentTableMap/SimpleCRUDFluentTableMap.cs:152-156 | sets the ignored-in-update flag and nothing else |
| FluentMap.FluentColumnProperties.AsIgnoredInInsert | Dapper.SimpleCRUDFluentTableMap/SimpleCRUDFluentTableMap.cs:157-161 | sets the ignored-in-insert flag and nothing else |
| FluentMap.EncapsulateAll | Dapper.SimpleCRUDFluentTableMap/SimpleCRUDFluentTableMap.cs:182 | quotes every part of a dotted name on its own |
| FluentMap.QualifiedNameBare | Dapper.SimpleCRUDFluentTableMap/SimpleCRUDFluentTableMap.cs:176-183 | `QualifiedName`: without quoting, a mapped table name is kept as given |
| FluentMap.QualifiedNameParts | Dapper.SimpleCRUDFluentTableMap/SimpleCRUDFluentTableMap.cs:176-183 | a name is quoted whole, and `schema.name` is quoted part by part around the dot |
| FluentMap.QualifiedNameMatchesTableAttribute | Dapper.SimpleCRUDFluentTableMap/SimpleCRUDFluentTableMap.cs:176-183 | a mapper naming the table `schema.name` gets the same name as a `[Table]` with that schema |
| FluentMap.FirstNamed | Dapper.SimpleCRUDFluentTableMap/SimpleCRUDFluentTableMap.cs:224-233 | finds the first mapped property with the name, and nothing when no mapped property has it |
| FluentMap.TableMapper.constructor | Dapper.SimpleCRUDFluentTableMap/SimpleCRUDFluentTableMap.cs:170-174 | a new mapper names the table after the class and maps no property |
| FluentMap.TableMapper.ToTableName | Dapper.SimpleCRUDFluentTableMap/SimpleCRUDFluentTableMap.cs:176-183 | an empty name is refused; otherwise the table becomes the name quoted part by part |
| FluentMap.TableMapper.Map | Dapper.SimpleCRUDFluentTableMap/SimpleCRUDFluentTableMap.cs:184-192 | mapping a property twice is refused; otherwise default settings for it are added and returned |
| FluentMap.Registry.constructor | Dapper.SimpleCRUDFluentTableMap/SimpleCRUDFluentTableMap.cs:17 | the registry starts empty |
| FluentMap.Registry.AddMapping | Dapper.SimpleCRUDFluentTableMap/SimpleCRUDFluentTableMap.cs:26-35 | a null mapper or a second mapper for the same class is refused and nothing changes; otherwise the mapper is registered for its class, `ResolveTableName` then gives its table name for that class, and other classes resolve as before |
| FluentMap.Registry.UnmappedResolvesToDefault | Dapper.SimpleCRUDFluentTableMap/SimpleCRUDFluentTableMap.cs:224-237 | `ResolveColumnProperties` and `ResolveColumnName`: a property without a mapping resolves to default settings |
| FluentMap.Registry.MappedResolvesToEntry | Dapper.SimpleCRUDFluentTableMap/SimpleCRUDFluentTableMap.cs:224-237 | `ResolveColumnProperties` and `ResolveColumnName`: a mapped property resolves to the settings and column name of its first mapping |
| Fixtures.UserMetadata | Dapper.SimpleCRUDTests/Tests.cs:18-26 | `User`: the key is `Id` by name, the nullable enum is a column, the key is not inserted, and the table is `Users` |
| Fixtures.CarKey | Dapper.SimpleCRUDTests/Tests.cs:37-56 | `Car`: the `[Key]` property is the only key |
| Fixtures.CarEditable | Dapper.SimpleCRUDTests/Tests.cs:37-56 | `Car`: the computed `[Editable(false)]` property is dropped |
| Fixtures.CarColumns | Dapper.SimpleCRUDTests/Tests.cs:37-56 | `Car`: the related list is not a column, leaving `CarId`, `Make`, `Model` |
| Fixtures.CarWrites | Dapper.SimpleCRUDTests/Tests.cs:37-56 | `Car`: `Make` and `Model` are inserted and updated, the key neither |
| Fixtures.CarSelectList | Dapper.SimpleCRUDTests/Tests.cs:37-56 | `Car`'s select list is its three columns separated by commas |
| Fixtures.CarGetById | Dapper.SimpleCRUDTests/Tests.cs:37-56 | `Car`'s by-id query selects the three columns from `Car` where `CarId = @Id` |
| Fixtures.CarLogTableName | Dapper.SimpleCRUDTests/Tests.cs:70-75 | `CarLog`'s table is `Log.CarLog`, or `[Log].[CarLog]` with brackets, the same as a fluent mapper's `Log.CarLog` |
| Fixtures.CityInsertSkipsKey | Dapper.SimpleCRUDTests/Tests.cs:87-92 | `City`: the string `[Key]` is the key and is left out of the insert |
| Fixtures.GuidTestInsertsKey | Dapper.SimpleCRUDTests/Tests.cs:94-99 | `GUIDTest`: the Guid `[Key]` is the key and is inserted |
| Fixtures.StrangeColumnNamesColumns | Dapper.SimpleCRUDTests/Tests.cs:101-111 | `StrangeColumnNames`: the `[Editable(false)]` property is not a column |
| Fixtures.StrangeWordAlias | Dapper.SimpleCRUDTests/Tests.cs:106-107 | the renamed property is read from `colstringstrangeword` and aliased back to `StrangeWord` |
| Fixtures.StrangeWordBracketedAlias | Dapper.SimpleCRUDTests/Tests.cs:106-107 | with brackets, only the stored name is quoted, not the alias |
| Fixtures.WordUnaliased | Dapper.SimpleCRUDTests/Tests.cs:105 | an unrenamed property is read under its own name |

## Left out

- Executing statements through Dapper, async variants, transactions, timeouts and the debugger trace: operations return the statement and its parameters, or the exception, instead.
- Reflection: an entity type is given as data (its properties, their types and attributes) rather than discovered from a CLR class.
- The untyped `Insert` overload (SimpleCRUD.cs:259-262) only converts the key type; it is modelled through `Insert` with an `int?` key type.
- `Insert` returns where the key comes from (the entity's key or the database's identity), not the value the database returns, because there is no database.
- The cast of the returned key to `TKey` is not modelled.
- `Convert.ToInt64` overflow on a `ulong` key above the long range is not modelled; integer keys are unbounded.
- `DateTime.Now` and `Guid.NewGuid` are parameters of `Insert`, the clock and the random bytes.
- A null string argument (conditions, order, names) is modelled as the empty string, which every use in the code treats the same way.
- Dialect values outside the four named ones (a cast from an integer) are not modelled.
- Lower-casing is ASCII only; culture-specific case mapping is not modelled.
- Concurrent calls to `SetDialect` on the process-wide settings are not modelled.
- Paging templates are held as literal pieces and named holes, and their text is the pieces joined; the template strings are not written out character by character.
- Crud.SimpleCrud.GetDialect has no contract of its own; `SetDialect` states what it returns.
- SqlText.PagedTextFills is stated only when no argument contains a brace, because an argument holding a placeholder would be filled by a later `Replace`.
- SqlText.SelectListSplits is stated only for plain names: non-empty, with no comma, and not ending in a space. C# identifiers always are.
- SqlText.InsertTextIsJoin is stated only for plain names, so that the trim of a trailing ", " cannot cut into a name.
- SqlText.InsertTextReads is stated only for plain names, for the same reason.
- SqlText.InsertListIsJoin is stated only for plain names, for the same reason.
- SqlText.ListWhereOnlyWithConditions gives the closed where clause only for conditions that are the entity's own properties, with unique names; a condition object's property is matched to the entity's by name (`MatchByName`), and for other conditions only the `where` prefix is stated.
- SqlText.UpdateTextReads and SqlText.DeleteTextReads give the closed form only for entity types whose property names are unique, as a C# class's are; with repeated names the where clause may use another property's column.
- Inserting.ToInt64 has no string case: a key `Value` is an integer, a Guid or null, so a string key that `Convert.ToInt64` would parse, or reject with a `FormatException`, is not modelled.
- Paging.OffsetMatchesBand reads the row window off the paging clauses the clause lemmas prove; SQL's evaluation of the arithmetic in those clauses is not modelled.
- Guids.NeverEmpty is stated only for a clock reading that is a real date and time (`ValidClock`); the clock is a parameter, and an arbitrary one could make all six time bytes zero.
- `AddAllMappingsFromAssembliesLoaded` and `RegisterSimpleCrudFluentTableMapResolver` scan assemblies and set resolvers that SimpleCRUD.cs in this version does not declare; the resolvers are modelled on their own, and the core's quoting is a parameter of the mapper.
- `GetPropertyInfo`'s expression parsing is not modelled; `Map` takes the property directly.
- Dictionary enumeration order is modelled as insertion order.
- The fluent resolver hands back the settings object stored by `Map`; the model returns a snapshot of its fields.
