/** What SimpleCRUD reads off an entity type by reflection, as plain data:
    the properties in declaration order with the attribute markers they
    carry, and the filters that decide which properties are keys, which are
    read and written, and how tables and columns are named
    (SimpleCRUD.cs, GetIdProperties through GetColumnName, and
    TypeExtension.IsSimpleType). */
module Metadata {
  import opened Results
  import opened Strings
  import opened Dialects

  /** The CLR types a property can have, as far as the filters distinguish
      them. `Class` stands for any other reference type (a list of related
      rows, a nested object). */
  datatype ClrType =
    | Byte | SByte | Int16 | UInt16 | Int32 | UInt32 | Int64 | UInt64
    | Single | Double | Decimal | Boolean | String | Char
    | Guid | DateTime | DateTimeOffset | TimeSpan | ByteArray
    | Enum(enumName: string)
    | Nullable(underlying: ClrType)
    | Class(className: string)

  /** `Nullable.GetUnderlyingType(type) ?? type`. */
  function Unwrap(t: ClrType): ClrType
  {
    if t.Nullable? then t.underlying else t
  }

  /** The type list in `TypeExtension.IsSimpleType`. */
  const SimpleTypes: seq<ClrType> :=
    [Byte, SByte, Int16, UInt16, Int32, UInt32, Int64, UInt64, Single, Double, Decimal,
     Boolean, String, Char, Guid, DateTime, DateTimeOffset, ByteArray]

  /** A value the database can hold in one column: a listed primitive, or an
      enum, possibly wrapped in `Nullable`. */
  predicate IsSimpleType(t: ClrType)
  {
    Unwrap(t) in SimpleTypes || Unwrap(t).Enum?
  }

  /** TimeSpan is missing from the list: a TimeSpan property is complex to
      the SQL generator. Nested classes are never simple. */
  lemma SimpleTypeCases(t: ClrType)
    ensures !IsSimpleType(TimeSpan) && !IsSimpleType(Nullable(TimeSpan))
    ensures t.Class? ==> !IsSimpleType(t)
    ensures !t.Nullable? && IsSimpleType(t) ==> IsSimpleType(Nullable(t))
  {
  }

  /** A property with the attribute markers SimpleCRUD looks for: `[Key]`,
      `[Required]`, `[Column(name)]`, `[Editable(allow)]`, `[ReadOnly(flag)]`.
      An absent marker is `None`. */
  datatype Property = Property(
    name: string,
    propertyType: ClrType,
    key: bool,
    required: bool,
    column: Option<string>,
    editable: Option<bool>,
    readOnly: Option<bool>)

  /** `[Table(name, Schema = schema)]`; an unset schema is the empty string. */
  datatype TableAttribute = TableAttribute(name: string, schema: string)

  /** An entity class: its name, its public properties in declaration order,
      and its optional `[Table]` marker. */
  datatype EntityType = EntityType(name: string, properties: seq<Property>, table: Option<TableAttribute>)

  /** A column-less plain property, as found on the anonymous objects passed
      as where-conditions. */
  function Plain(name: string, t: ClrType): Property
  {
    Property(name, t, false, false, None, None, None)
  }

  // ----- a filter that keeps order -----

  /** LINQ `Where`: the items that pass, in their original order. */
  function Filter<T(!new)>(xs: seq<T>, f: T -> bool): seq<T>
  {
    if |xs| == 0 then []
    else if f(xs[0]) then [xs[0]] + Filter(xs[1..], f)
    else Filter(xs[1..], f)
  }

  /** An item survives the filter exactly when it is in the input and passes. */
  lemma {:induction false} FilterMembers<T(!new)>(xs: seq<T>, f: T -> bool)
    ensures forall x :: x in Filter(xs, f) <==> x in xs && f(x)
  {
    if |xs| > 0 {
      FilterMembers(xs[1..], f);
      assert xs == [xs[0]] + xs[1..];
    }
  }

  /** Filtering distributes over concatenation, so it keeps the original
      order of the survivors. */
  lemma {:induction false} FilterAppend<T(!new)>(xs: seq<T>, ys: seq<T>, f: T -> bool)
    ensures Filter(xs + ys, f) == Filter(xs, f) + Filter(ys, f)
  {
    if |xs| > 0 {
      assert (xs + ys)[0] == xs[0];
      assert (xs + ys)[1..] == xs[1..] + ys;
      FilterAppend(xs[1..], ys, f);
    } else {
      assert xs + ys == ys;
    }
  }

  /** Two filters in a row are one filter by the conjunction. */
  lemma {:induction false} FilterFilter<T(!new)>(xs: seq<T>, f: T -> bool, g: T -> bool)
    ensures Filter(Filter(xs, f), g) == Filter(xs, x => f(x) && g(x))
  {
    if |xs| > 0 {
      FilterFilter(xs[1..], f, g);
    }
  }

  // ----- the property filters -----

  predicate IsKey(p: Property) { p.key }
  predicate IsNamedId(p: Property) { p.name == "Id" }

  /** `GetIdProperties(Type)`: the `[Key]` properties, or, when there are
      none, the properties named exactly "Id". */
  function IdProperties(t: EntityType): seq<Property>
  {
    var keys := Filter(t.properties, IsKey);
    if |keys| > 0 then keys else Filter(t.properties, IsNamedId)
  }

  /** The ids are the `[Key]` properties when the type has any, and
      otherwise the properties named "Id". */
  lemma IdPropertiesMembers(t: EntityType)
    ensures (exists p :: p in t.properties && p.key) ==>
      forall p :: p in IdProperties(t) <==> p in t.properties && p.key
    ensures (forall p :: p in t.properties ==> !p.key) ==>
      forall p :: p in IdProperties(t) <==> p in t.properties && p.name == "Id"
  {
    var keys := Filter(t.properties, IsKey);
    FilterMembers(t.properties, IsKey);
    FilterMembers(t.properties, IsNamedId);
    if |keys| == 0 {
      assert forall p :: p in t.properties ==> !p.key;
    } else {
      assert keys[0] in keys;
    }
  }

  /** Only an exact, case-sensitive "Id" counts: a key-less type whose
      identifier is spelled "ID" or "id" has no id property. */
  lemma IdIsCaseSensitive(t: EntityType)
    requires forall p :: p in t.properties ==> !p.key && p.name != "Id"
    ensures forall p :: p !in IdProperties(t)
  {
    IdPropertiesMembers(t);
  }

  /** The first filter of `GetScaffoldableProperties`: no `[Editable(false)]`. */
  predicate NotMarkedReadOnlyEdit(p: Property) { p.editable != Some(false) }

  /** The second filter: simple-typed, or explicitly `[Editable(true)]`. */
  predicate SimpleOrEditable(p: Property) { IsSimpleType(p.propertyType) || p.editable == Some(true) }

  /** `GetScaffoldableProperties`: the properties SimpleCRUD reads and writes. */
  function ScaffoldableProperties(t: EntityType): seq<Property>
  {
    Filter(Filter(t.properties, NotMarkedReadOnlyEdit), SimpleOrEditable)
  }

  /** A property is scaffolded exactly when it is not `[Editable(false)]`
      and is simple-typed or `[Editable(true)]`. */
  lemma ScaffoldableMembers(t: EntityType)
    ensures forall p :: p in ScaffoldableProperties(t) <==>
      p in t.properties && p.editable != Some(false) && (IsSimpleType(p.propertyType) || p.editable == Some(true))
  {
    FilterMembers(t.properties, NotMarkedReadOnlyEdit);
    FilterMembers(Filter(t.properties, NotMarkedReadOnlyEdit), SimpleOrEditable);
  }

  /** The filters of `GetUpdateableProperties` after scaffolding: not named
      "Id", not `[Key]`, not `[ReadOnly(true)]`. */
  predicate NotNamedId(p: Property) { p.name != "Id" }
  predicate NotKey(p: Property) { !p.key }
  predicate NotReadOnly(p: Property) { p.readOnly != Some(true) }

  /** `GetUpdateableProperties`: the columns an update may set. */
  function UpdateableProperties(t: EntityType): seq<Property>
  {
    Filter(Filter(Filter(ScaffoldableProperties(t), NotNamedId), NotKey), NotReadOnly)
  }

  /** An update sets exactly the scaffolded properties that are not named
      "Id", not `[Key]` and not `[ReadOnly(true)]`. */
  lemma UpdateableMembers(t: EntityType)
    ensures forall p :: p in UpdateableProperties(t) <==>
      p in ScaffoldableProperties(t) && p.name != "Id" && !p.key && p.readOnly != Some(true)
  {
    var s := ScaffoldableProperties(t);
    FilterMembers(s, NotNamedId);
    FilterMembers(Filter(s, NotNamedId), NotKey);
    FilterMembers(Filter(Filter(s, NotNamedId), NotKey), NotReadOnly);
  }

  /** The three `continue` conditions shared by `BuildInsertParameters` and
      `BuildInsertValues`: a database-generated key (not a Guid, `[Key]`,
      not `[Required]`), a `[ReadOnly(true)]` property, and a non-Guid,
      non-required property named "Id". */
  predicate SkippedOnInsert(p: Property)
  {
    (p.propertyType != Guid && p.key && !p.required)
    || p.readOnly == Some(true)
    || (p.name == "Id" && !p.required && p.propertyType != Guid)
  }

  predicate Inserted(p: Property) { !SkippedOnInsert(p) }

  /** The scaffoldable properties the insert statement names. */
  function InsertableProperties(t: EntityType): seq<Property>
  {
    Filter(ScaffoldableProperties(t), Inserted)
  }

  /** An insert names exactly the scaffolded properties no `continue` skips. */
  lemma InsertableMembers(t: EntityType)
    ensures forall p :: p in InsertableProperties(t) <==> p in ScaffoldableProperties(t) && !SkippedOnInsert(p)
  {
    FilterMembers(ScaffoldableProperties(t), Inserted);
  }

  /** No inserted column is a database-generated key: Guid keys and
      `[Required]` keys are the only keys the caller supplies. */
  lemma InsertedKeysAreSupplied(t: EntityType, p: Property)
    requires p in InsertableProperties(t) && (p.key || p.name == "Id")
    ensures p.propertyType == Guid || p.required
  {
    InsertableMembers(t);
  }

  /** Every updateable column is also inserted, unless it is a non-Guid key
      without `[Required]`, which the update filter already removed. */
  lemma UpdateableAreInsertable(t: EntityType, p: Property)
    requires p in UpdateableProperties(t)
    ensures p in InsertableProperties(t)
  {
    UpdateableMembers(t);
    InsertableMembers(t);
  }

  // ----- names -----

  /** `GetTableName(Type)`: the quoted class name, or the quoted `[Table]`
      name, prefixed by the quoted schema and a dot when the schema is set. */
  function TableName(q: Quoting, t: EntityType): string
  {
    match t.table
    case None => Encapsulate(q, t.name)
    case Some(attr) =>
      if IsNullOrEmpty(attr.schema) then Encapsulate(q, attr.name)
      else Encapsulate(q, attr.schema) + "." + Encapsulate(q, attr.name)
  }

  /** With bare quoting the table name is the class name, the `[Table]` name,
      or `schema.name`. */
  lemma BareTableName(t: EntityType)
    ensures t.table.None? ==> TableName(Bare, t) == t.name
    ensures t.table.Some? && t.table.value.schema == "" ==> TableName(Bare, t) == t.table.value.name
    ensures t.table.Some? && t.table.value.schema != "" ==>
      TableName(Bare, t) == t.table.value.schema + "." + t.table.value.name
  {
  }

  /** With bracket quoting and dot-free names, the dots of the table name
      separate exactly the quoted schema from the quoted name, so both can be
      read back. */
  lemma BracketTableNameSplits(t: EntityType)
    requires t.table.Some? && t.table.value.schema != ""
    requires '.' !in t.table.value.schema && '.' !in t.table.value.name
    ensures Split(TableName(Brackets, t), '.') ==
      ["[" + t.table.value.schema + "]", "[" + t.table.value.name + "]"]
  {
    var a, b := "[" + t.table.value.schema + "]", "[" + t.table.value.name + "]";
    assert '.' !in a && '.' !in b;
    assert Join(['.'], [a, b]) == TableName(Brackets, t);
    SplitJoin([a, b], '.');
  }

  /** The name the column is stored under: the `[Column]` name if present. */
  function StoredName(p: Property): string
  {
    match p.column
    case Some(c) => c
    case None => p.name
  }

  /** `GetColumnName`: the quoted `[Column]` name, or the quoted property name. */
  function ColumnName(q: Quoting, p: Property): (r: string)
    ensures q == Bare ==> r == StoredName(p)
    ensures q == Brackets ==> r == "[" + StoredName(p) + "]"
  {
    Encapsulate(q, StoredName(p))
  }

  /** The `[Column]` attribute overrides the property name and nothing else
      influences the column name. */
  lemma ColumnNameOverride(q: Quoting, p: Property)
    ensures p.column.Some? ==> ColumnName(q, p) == Encapsulate(q, p.column.value)
    ensures p.column.None? ==> ColumnName(q, p) == Encapsulate(q, p.name)
    ensures forall n :: ColumnName(q, p.(name := n)) == ColumnName(q, p) <== p.column.Some?
  {
  }
}
