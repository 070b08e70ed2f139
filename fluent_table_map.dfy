/** The fluent mapping add-on (SimpleCRUDFluentTableMap.cs): per-type
    mappers that name the table and carry per-property column settings set by
    chained calls, a registry of mappers keyed by entity type, and the
    resolvers that look a type's table name and a property's column settings
    up in that registry, falling back to defaults. */
module FluentMap {
  import opened Results
  import opened Strings
  import opened Metadata
  import D = Dialects

  /** A CLR type as the registry keys it; `name` is `Type.Name`. */
  datatype TypeRef = TypeRef(fullName: string, name: string)

  /** A `PropertyInfo`: the property's name and type, and the type it was
      obtained from (`ReflectedType`). */
  datatype PropertyRef = PropertyRef(name: string, propertyType: ClrType, reflectedType: TypeRef)

  // ----- the add-on's own IsSimpleType -----

  /** The type list of the add-on's `IsSimpleType`: the core list plus
      `TimeSpan`. */
  const FluentSimpleTypes: seq<ClrType> :=
    [Byte, SByte, Int16, UInt16, Int32, UInt32, Int64, UInt64, Single, Double, Decimal,
     Boolean, String, Char, Guid, DateTime, DateTimeOffset, TimeSpan, ByteArray]

  predicate FluentIsSimpleType(t: ClrType)
  {
    Unwrap(t) in FluentSimpleTypes || Unwrap(t).Enum?
  }

  /** Splicing one element into a sequence adds exactly that element to its
      members. */
  lemma MemberOfSpliced<T>(xs: seq<T>, k: nat, y: T, u: T)
    requires k <= |xs|
    ensures u in xs[..k] + [y] + xs[k..] <==> u in xs || u == y
  {
    var ys := xs[..k] + [y] + xs[k..];
    if u in xs {
      var i :| 0 <= i < |xs| && xs[i] == u;
      if i < k {
        assert ys[i] == u;
      } else {
        assert ys[i + 1] == u;
      }
    }
    if u in ys && u != y {
      var i :| 0 <= i < |ys| && ys[i] == u;
      if i < k {
        assert xs[i] == u;
      } else {
        assert i != k;
        assert xs[i - 1] == u;
      }
    }
  }

  /** The add-on's notion of a simple type differs from the core's only in
      counting `TimeSpan` (nullable or not). */
  lemma FluentSimpleIsCorePlusTimeSpan(t: ClrType)
    ensures FluentIsSimpleType(t) <==> IsSimpleType(t) || Unwrap(t) == TimeSpan
    ensures Unwrap(t) != TimeSpan ==> (FluentIsSimpleType(t) <==> IsSimpleType(t))
  {
    assert FluentSimpleTypes == SimpleTypes[..17] + [TimeSpan] + SimpleTypes[17..];
    MemberOfSpliced(SimpleTypes, 17, TimeSpan, Unwrap(t));
  }

  // ----- column settings -----

  /** The column settings of one property (`IColumnProperties`); a null
      `AliasName` is `None`. */
  datatype ColumnProperties = ColumnProperties(
    aliasName: Option<string>,
    columnName: string,
    isKey: bool,
    isRequired: bool,
    isEditable: bool,
    isNotMapped: bool,
    isReadOnly: bool,
    isIgnoredInSelect: bool,
    isIgnoredInInsert: bool,
    isIgnoredInUpdate: bool)

  /** The settings of a freshly constructed `FluentColumnProperties`. */
  function DefaultColumnProperties(p: PropertyRef): ColumnProperties
  {
    ColumnProperties(None, p.name, false, false, FluentIsSimpleType(p.propertyType), false, false, false, false, false)
  }

  /** `FluentColumnProperties`: the settings object `Map` hands out; every
      setter changes it in place and returns it for chaining. */
  class FluentColumnProperties {
    var aliasName: Option<string>
    var columnName: string
    var isKey: bool
    var isRequired: bool
    var isEditable: bool
    var isNotMapped: bool
    var isReadOnly: bool
    var isIgnoredInSelect: bool
    var isIgnoredInInsert: bool
    var isIgnoredInUpdate: bool

    /** The current settings as a value. */
    function Snapshot(): ColumnProperties
      reads this
    {
      ColumnProperties(aliasName, columnName, isKey, isRequired, isEditable, isNotMapped, isReadOnly,
                       isIgnoredInSelect, isIgnoredInInsert, isIgnoredInUpdate)
    }

    /** The column is named after the property, it is editable exactly when
        its type is simple (TimeSpan included), there is no alias and every
        other flag is off. */
    constructor(p: PropertyRef)
      ensures columnName == p.name && aliasName == None
      ensures isEditable == FluentIsSimpleType(p.propertyType)
      ensures !isKey && !isRequired && !isNotMapped && !isReadOnly
      ensures !isIgnoredInSelect && !isIgnoredInInsert && !isIgnoredInUpdate
      ensures Snapshot() == DefaultColumnProperties(p)
    {
      columnName := p.name;
      isEditable := FluentIsSimpleType(p.propertyType);
      aliasName := None;
      isKey, isRequired, isNotMapped, isReadOnly := false, false, false, false;
      isIgnoredInSelect, isIgnoredInInsert, isIgnoredInUpdate := false, false, false;
    }

    /** A null or empty name is refused and nothing changes; otherwise the
        old column name becomes the alias and the new one the column name. */
    method WithColumnName(name: string) returns (r: Result<FluentColumnProperties>)
      modifies this
      ensures IsNullOrEmpty(name) ==> r == Throws(ArgumentNullException("columnName")) && Snapshot() == old(Snapshot())
      ensures !IsNullOrEmpty(name) ==>
        r == Ok(this) && Snapshot() == old(Snapshot()).(aliasName := Some(old(columnName)), columnName := name)
    {
      if IsNullOrEmpty(name) {
        return Throws(ArgumentNullException("columnName"));
      }
      aliasName := Some(columnName);
      columnName := name;
      r := Ok(this);
    }

    method AsKey() returns (r: FluentColumnProperties)
      modifies this
      ensures r == this && Snapshot() == old(Snapshot()).(isKey := true)
    {
      isKey := true;
      r := this;
    }

    method AsRequired() returns (r: FluentColumnProperties)
      modifies this
      ensures r == this && Snapshot() == old(Snapshot()).(isRequired := true)
    {
      isRequired := true;
      r := this;
    }

    method AsReadOnly() returns (r: FluentColumnProperties)
      modifies this
      ensures r == this && Snapshot() == old(Snapshot()).(isReadOnly := true)
    {
      isReadOnly := true;
      r := this;
    }

    method AsNotMapped() returns (r: FluentColumnProperties)
      modifies this
      ensures r == this && Snapshot() == old(Snapshot()).(isNotMapped := true)
    {
      isNotMapped := true;
      r := this;
    }

    method AsEditable() returns (r: FluentColumnProperties)
      modifies this
      ensures r == this && Snapshot() == old(Snapshot()).(isEditable := true)
    {
      isEditable := true;
      r := this;
    }

    method AsNotEditable() returns (r: FluentColumnProperties)
      modifies this
      ensures r == this && Snapshot() == old(Snapshot()).(isEditable := false)
    {
      isEditable := false;
      r := this;
    }

    method AsIgnoredInSelect() returns (r: FluentColumnProperties)
      modifies this
      ensures r == this && Snapshot() == old(Snapshot()).(isIgnoredInSelect := true)
    {
      isIgnoredInSelect := true;
      r := this;
    }

    method AsIgnoredInUpdate() returns (r: FluentColumnProperties)
      modifies this
      ensures r == this && Snapshot() == old(Snapshot()).(isIgnoredInUpdate := true)
    {
      isIgnoredInUpdate := true;
      r := this;
    }

    method AsIgnoredInInsert() returns (r: FluentColumnProperties)
      modifies this
      ensures r == this && Snapshot() == old(Snapshot()).(isIgnoredInInsert := true)
    {
      isIgnoredInInsert := true;
      r := this;
    }
  }

  // ----- table names -----

  /** Each part quoted. */
  function EncapsulateAll(q: D.Quoting, parts: seq<string>): (r: seq<string>)
    ensures |r| == |parts|
    ensures forall i :: 0 <= i < |parts| ==> r[i] == D.Encapsulate(q, parts[i])
  {
    if |parts| == 0 then [] else [D.Encapsulate(q, parts[0])] + EncapsulateAll(q, parts[1..])
  }

  /** The name `ToTableName` stores: the text split at '.', each part
      quoted, the parts joined again with '.'. */
  function QualifiedName(q: D.Quoting, s: string): string
  {
    Join(".", EncapsulateAll(q, Split(s, '.')))
  }

  /** With bare quoting the stored name is the given text. */
  lemma QualifiedNameBare(s: string)
    ensures QualifiedName(D.Bare, s) == s
  {
    var parts := Split(s, '.');
    assert EncapsulateAll(D.Bare, parts) == parts;
    JoinSplit(s, '.');
  }

  /** A dotted name `schema.table` has each of its two parts quoted on its
      own; a name without a dot is quoted as a whole. */
  lemma QualifiedNameParts(q: D.Quoting, schema: string, name: string)
    requires '.' !in schema && '.' !in name
    ensures QualifiedName(q, name) == D.Encapsulate(q, name)
    ensures QualifiedName(q, schema + "." + name) == D.Encapsulate(q, schema) + "." + D.Encapsulate(q, name)
  {
    assert Join(['.'], [name]) == name;
    SplitJoin([name], '.');
    assert Join(['.'], [schema, name]) == schema + "." + name;
    SplitJoin([schema, name], '.');
    var quoted := EncapsulateAll(q, [schema, name]);
    assert quoted == [D.Encapsulate(q, schema), D.Encapsulate(q, name)];
  }

  /** `ToTableName` names the table as a `[Table]` attribute with the same
      name and schema would. */
  lemma QualifiedNameMatchesTableAttribute(q: D.Quoting, t: EntityType)
    requires t.table.Some? && '.' !in t.table.value.name && '.' !in t.table.value.schema
    ensures var attr := t.table.value;
      TableName(q, t) == QualifiedName(q, if attr.schema == "" then attr.name else attr.schema + "." + attr.name)
  {
    QualifiedNameParts(q, t.table.value.schema, t.table.value.name);
  }

  // ----- per-type mappers -----

  /** A dictionary kept as its entries in insertion order. */
  function KeysOf(entries: seq<(PropertyRef, FluentColumnProperties)>): (r: seq<PropertyRef>)
    ensures |r| == |entries|
    ensures forall i :: 0 <= i < |entries| ==> r[i] == entries[i].0
  {
    if |entries| == 0 then [] else [entries[0].0] + KeysOf(entries[1..])
  }

  /** The position of the first entry whose property has the given name:
      `Where(name matches).FirstOrDefault()`. */
  function FirstNamed(entries: seq<(PropertyRef, FluentColumnProperties)>, name: string): (r: Option<nat>)
    ensures r.Some? ==> r.value < |entries| && entries[r.value].0.name == name &&
                        forall j :: 0 <= j < r.value ==> entries[j].0.name != name
    ensures r.None? <==> forall j :: 0 <= j < |entries| ==> entries[j].0.name != name
  {
    if |entries| == 0 then None
    else if entries[0].0.name == name then Some(0)
    else
      match FirstNamed(entries[1..], name)
      case None => None
      case Some(k) => Some(k + 1)
  }

  /** Adding an entry at the end never changes which entry is found first
      for a name that was already present. */
  lemma {:induction false} FirstNamedAppend(entries: seq<(PropertyRef, FluentColumnProperties)>,
                                            e: (PropertyRef, FluentColumnProperties), name: string)
    ensures FirstNamed(entries + [e], name) ==
      if FirstNamed(entries, name).Some? then FirstNamed(entries, name)
      else if e.0.name == name then Some(|entries|)
      else None
  {
    if |entries| > 0 {
      assert (entries + [e])[1..] == entries[1..] + [e];
      FirstNamedAppend(entries[1..], e, name);
    } else {
      assert entries + [e] == [e];
    }
  }

  /** `TableMapper<T>`: the table name for `T` and the column settings of
      the properties mapped so far. */
  class TableMapper {
    const mappedType: TypeRef
    /** `GetType().FullName` of the concrete mapper class. */
    const mapperTypeName: string
    var tableName: string
    var columnPropertiesMaps: seq<(PropertyRef, FluentColumnProperties)>

    /** A dictionary holds each key once. */
    predicate Valid()
      reads this
    {
      forall i, j :: 0 <= i < j < |columnPropertiesMaps| ==> columnPropertiesMaps[i].0 != columnPropertiesMaps[j].0
    }

    /** The settings objects the mapper holds. */
    function Cells(): set<FluentColumnProperties>
      reads this
    {
      set i | 0 <= i < |columnPropertiesMaps| :: columnPropertiesMaps[i].1
    }

    /** The table is named after the bare type name and nothing is mapped. */
    constructor(t: TypeRef, mapperTypeName: string)
      ensures mappedType == t && this.mapperTypeName == mapperTypeName
      ensures tableName == t.name && columnPropertiesMaps == []
      ensures Valid()
    {
      mappedType := t;
      this.mapperTypeName := mapperTypeName;
      tableName := t.name;
      columnPropertiesMaps := [];
    }

    /** A null or empty name is refused; otherwise the table name becomes
        the dotted name with each part quoted. Mapped columns are kept. */
    method ToTableName(q: D.Quoting, name: string) returns (r: Outcome)
      modifies this
      ensures columnPropertiesMaps == old(columnPropertiesMaps)
      ensures IsNullOrEmpty(name) ==> r == Fails(ArgumentNullException("tableName")) && tableName == old(tableName)
      ensures !IsNullOrEmpty(name) ==> r == Done && tableName == QualifiedName(q, name)
    {
      if IsNullOrEmpty(name) {
        return Fails(ArgumentNullException("tableName"));
      }
      tableName := QualifiedName(q, name);
      r := Done;
    }

    /** Mapping a property twice is refused and nothing changes; otherwise
        one entry with default settings is added and its settings object,
        new and not shared, is returned for further configuration. */
    method Map(p: PropertyRef) returns (r: Result<FluentColumnProperties>)
      requires Valid()
      modifies this
      ensures Valid() && tableName == old(tableName)
      ensures p in old(KeysOf(columnPropertiesMaps)) ==>
        r == Throws(InvalidOperationException(PropertyAlreadyMapped(p.name))) &&
        columnPropertiesMaps == old(columnPropertiesMaps)
      ensures p !in old(KeysOf(columnPropertiesMaps)) ==>
        r.Ok? && fresh(r.value) && r.value.Snapshot() == DefaultColumnProperties(p) &&
        columnPropertiesMaps == old(columnPropertiesMaps) + [(p, r.value)]
    {
      if p in KeysOf(columnPropertiesMaps) {
        return Throws(InvalidOperationException(PropertyAlreadyMapped(p.name)));
      }
      var colProperties := new FluentColumnProperties(p);
      columnPropertiesMaps := columnPropertiesMaps + [(p, colProperties)];
      r := Ok(colProperties);
    }
  }

  // ----- the registry and its resolvers -----

  /** The static `tableMappers` dictionary and the resolvers that read it. */
  class Registry {
    var tableMappers: map<TypeRef, TableMapper>

    constructor()
      ensures tableMappers == map[]
    {
      tableMappers := map[];
    }

    /** `AddMapping<T>`: a null mapper and a second mapper for the same type
        are refused and leave the registry as it was; otherwise exactly the
        entry for `T` is added, so `T` now resolves to the mapper's table
        name and every other type resolves as before. */
    method AddMapping(t: TypeRef, mapper: TableMapper?) returns (r: Outcome)
      requires mapper != null ==> mapper.mappedType == t
      modifies this
      ensures mapper == null ==> r == Fails(ArgumentNullException("mapper")) && tableMappers == old(tableMappers)
      ensures mapper != null && t in old(tableMappers) ==>
        r == Fails(ArgumentException(MapperAlreadyRegistered(mapper.mapperTypeName))) &&
        tableMappers == old(tableMappers)
      ensures mapper != null && t !in old(tableMappers) ==> r == Done && tableMappers == old(tableMappers)[t := mapper]
      ensures r == Done ==> mapper != null && ResolveTableName(t) == mapper.tableName
      ensures forall u :: u != t ==> ResolveTableName(u) == old(ResolveTableName(u))
    {
      if mapper == null {
        return Fails(ArgumentNullException("mapper"));
      }
      if t in tableMappers {
        return Fails(ArgumentException(MapperAlreadyRegistered(mapper.mapperTypeName)));
      }
      tableMappers := tableMappers[t := mapper];
      r := Done;
    }

    /** The registered mapper's table name, or else the bare type name. */
    function ResolveTableName(t: TypeRef): string
      reads this, tableMappers.Values
    {
      if t in tableMappers then tableMappers[t].tableName else t.name
    }

    /** The settings of the first mapped property with the same name in the
        mapper registered for the property's type, or else defaults. */
    function ResolveColumnProperties(p: PropertyRef): ColumnProperties
      reads this, tableMappers.Values
      reads if p.reflectedType in tableMappers then tableMappers[p.reflectedType].Cells() else {}
    {
      if p.reflectedType !in tableMappers then DefaultColumnProperties(p)
      else
        var entries := tableMappers[p.reflectedType].columnPropertiesMaps;
        match FirstNamed(entries, p.name)
        case None => DefaultColumnProperties(p)
        case Some(i) => entries[i].1.Snapshot()
    }

    function ResolveColumnName(p: PropertyRef): string
      reads this, tableMappers.Values
      reads if p.reflectedType in tableMappers then tableMappers[p.reflectedType].Cells() else {}
    {
      ResolveColumnProperties(p).columnName
    }

    /** A property no mapper mentions resolves to its defaults: the column
        is named after the property and editable exactly when simple. */
    lemma UnmappedResolvesToDefault(p: PropertyRef)
      requires p.reflectedType !in tableMappers ||
               forall j :: 0 <= j < |tableMappers[p.reflectedType].columnPropertiesMaps| ==>
                 tableMappers[p.reflectedType].columnPropertiesMaps[j].0.name != p.name
      ensures ResolveColumnProperties(p) == DefaultColumnProperties(p)
      ensures ResolveColumnName(p) == p.name
      ensures ResolveColumnProperties(p).isEditable == FluentIsSimpleType(p.propertyType)
    {
    }

    /** A property mapped in its type's mapper resolves to the settings of
        the first entry with its name, as that entry stands now. */
    lemma MappedResolvesToEntry(p: PropertyRef, i: nat)
      requires p.reflectedType in tableMappers
      requires var m := tableMappers[p.reflectedType].columnPropertiesMaps;
        i < |m| && m[i].0.name == p.name && forall j :: 0 <= j < i ==> m[j].0.name != p.name
      ensures var m := tableMappers[p.reflectedType].columnPropertiesMaps;
        ResolveColumnProperties(p) == m[i].1.Snapshot() && ResolveColumnName(p) == m[i].1.columnName
    {
      var m := tableMappers[p.reflectedType].columnPropertiesMaps;
      var k := FirstNamed(m, p.name);
      assert k.Some? by {
        assert m[i].0.name == p.name;
      }
    }
  }
}
