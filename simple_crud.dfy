/** The static class `SimpleCRUD` (SimpleCRUD.cs and SimpleCRUDSQL.cs) as an
    object: its four dialect fields, the `Build*` helpers that append to a
    caller's `StringBuilder`, the connection-free `*Sql` builders, and the
    public operations up to the point where they hand a statement and its
    parameters to Dapper. Each method is proved to produce the text that
    `SqlText` specifies; what that text means is proved there. */
module Crud {
  import opened Results
  import opened Strings
  import D = Dialects
  import opened Metadata
  import opened Paging
  import opened SqlText
  import opened TextBuilder
  import opened Guids
  import opened Inserting

  /** A statement with its parameters, or the exception that stopped it. */
  function WithArgs(text: Result<string>, args: Args): Result<Command>
  {
    match text
    case Throws(e) => Throws(e)
    case Ok(s) => Ok(Command(s, args))
  }

  /** `GetAllProperties(whereConditions)`: a null condition object is
      replaced by `new { }`, which has no properties. */
  function ConditionProperties(whereConditions: Option<seq<Property>>): seq<Property>
  {
    match whereConditions
    case None => []
    case Some(ps) => ps
  }

  /** An entity object: its type, and its property values by name. `Insert`
      may overwrite its key. */
  class Entity {
    const etype: EntityType
    var values: map<string, Value>

    constructor(t: EntityType, vs: map<string, Value>)
      ensures etype == t && values == vs
    {
      etype := t;
      values := vs;
    }
  }

  class SimpleCrud {
    var dialect: D.Dialect
    var encapsulation: D.Quoting
    var identitySql: string
    var pagedListSql: seq<D.Piece>

    function Profile(): D.Profile
      reads this
    {
      D.Profile(dialect, encapsulation, identitySql, pagedListSql)
    }

    /** The four fields always hold the profile of the current dialect. */
    predicate Valid()
      reads this
    {
      Profile() == D.ProfileFor(dialect)
    }

    /** The static constructor: `SetDialect(Dialect.SQLServer)`. */
    constructor()
      ensures Valid() && Profile() == D.ProfileFor(D.SQLServer)
    {
      dialect := D.SQLServer;
      encapsulation := D.Brackets;
      identitySql := "";
      pagedListSql := [];
      new;
      SetDialect(D.SQLServer);
    }

    /** `GetDialect()`: the name of the current dialect. */
    function GetDialect(): string
      reads this
    {
      D.Name(dialect)
    }

    /** `SetDialect(dialect)`: the switch assigns the four fields together;
      every value other than PostgreSQL, SQLite and MySQL gets SQL Server's
      profile. */
    method SetDialect(d: D.Dialect)
      modifies this
      ensures Valid() && Profile() == D.ProfileFor(d)
      ensures GetDialect() == D.Name(d)
    {
      match d {
        case PostgreSQL =>
          dialect := D.PostgreSQL;
          encapsulation := D.Bare;
          identitySql := D.IdentitySql(D.PostgreSQL);
          pagedListSql := D.LimitOffsetPieces();
        case SQLite =>
          dialect := D.SQLite;
          encapsulation := D.Bare;
          identitySql := D.IdentitySql(D.SQLite);
          pagedListSql := D.LimitOffsetPieces();
        case MySQL =>
          dialect := D.MySQL;
          encapsulation := D.Bare;
          identitySql := D.IdentitySql(D.MySQL);
          pagedListSql := D.MySQLPieces();
        case SQLServer =>
          dialect := D.SQLServer;
          encapsulation := D.Brackets;
          identitySql := D.IdentitySql(D.SQLServer);
          pagedListSql := D.RowNumberPieces();
      }
    }

    // ----- the builders -----

    /** `BuildSelect(sb, props)`: each column, aliased when renamed, with ","
        between entries. */
    method BuildSelect(sb: StringBuilder, props: seq<Property>)
      modifies sb
      ensures sb.text == old(sb.text) + SelectList(encapsulation, props)
    {
      ghost var start := sb.text;
      ghost var items := SelectItems(encapsulation, props);
      for i := 0 to |props|
        invariant sb.text == start + JoinedSoFar(",", items, i)
      {
        ghost var before := sb.text;
        sb.Append(ColumnName(encapsulation, props[i]));
        if props[i].column.Some? {
          AppendAssoc(before, ColumnName(encapsulation, props[i]), " as " + props[i].name);
          sb.Append(" as " + props[i].name);
        }
        assert sb.text == before + items[i];
        if i < |props| - 1 {
          sb.Append(",");
        }
        JoinedSoFarNext(start, ",", items, i, before, sb.text);
      }
      JoinedSoFarAll(",", items);
    }

    /** `BuildWhere(sb, ps, source)`: for each condition property, the column
        of the last scaffoldable property of `source` with the same name (or
        of the condition property itself), compared with `@Name`, with
        " and " between entries. */
    method BuildWhere(sb: StringBuilder, ps: seq<Property>, source: EntityType)
      modifies sb
      ensures sb.text == old(sb.text) + WhereList(encapsulation, ps, source)
    {
      ghost var start := sb.text;
      ghost var items := WhereItems(encapsulation, ps, ScaffoldableProperties(source));
      for i := 0 to |ps|
        invariant sb.text == start + JoinedSoFar(" and ", items, i)
      {
        ghost var before := sb.text;
        var propertyToUse := ps[i];
        var sourceProperties := ScaffoldableProperties(source);
        for x := 0 to |sourceProperties|
          invariant propertyToUse == MatchByName(ps[i], sourceProperties[..x])
          invariant sb.text == before
        {
          MatchByNameNext(ps[i], sourceProperties, x);
          if sourceProperties[x].name == ps[i].name {
            propertyToUse := sourceProperties[x];
          }
        }
        assert sourceProperties[..|sourceProperties|] == sourceProperties;
        assert items[i] == ColumnName(encapsulation, propertyToUse) + " = @" + ps[i].name;
        sb.Append(ColumnName(encapsulation, propertyToUse) + " = @" + ps[i].name);
        if i < |ps| - 1 {
          sb.Append(" and ");
        }
        JoinedSoFarNext(start, " and ", items, i, before, sb.text);
      }
      JoinedSoFarAll(" and ", items);
    }

    /** `BuildUpdateSet(entity, sb)`: `column = @Name` for each updateable
        property, with ", " between entries. */
    method BuildUpdateSet(t: EntityType, sb: StringBuilder)
      modifies sb
      ensures sb.text == old(sb.text) + SetList(encapsulation, t)
    {
      var nonIdProps := UpdateableProperties(t);
      ghost var start := sb.text;
      ghost var items := SetItems(encapsulation, nonIdProps);
      for i := 0 to |nonIdProps|
        invariant sb.text == start + JoinedSoFar(", ", items, i)
      {
        var property := nonIdProps[i];
        ghost var before := sb.text;
        sb.Append(ColumnName(encapsulation, property) + " = @" + property.name);
        if i < |nonIdProps| - 1 {
          sb.Append(", ");
        }
        JoinedSoFarNext(start, ", ", items, i, before, sb.text);
      }
      JoinedSoFarAll(", ", items);
    }

    /** `BuildInsertParameters(entity, sb)`: the column of every scaffoldable
        property that is not skipped, each followed by ", " unless it is the
        last scaffoldable property; then one trailing ", " is removed. */
    method BuildInsertParameters(t: EntityType, sb: StringBuilder)
      modifies sb
      ensures var props := ScaffoldableProperties(t);
        sb.text == TrimSeparator(old(sb.text) + RawUpTo(ColumnSlots(encapsulation, props), |props|))
    {
      var props := ScaffoldableProperties(t);
      ghost var start := sb.text;
      ghost var slots := ColumnSlots(encapsulation, props);
      for i := 0 to |props|
        invariant sb.text == start + RawUpTo(slots, i)
      {
        var property := props[i];
        if property.propertyType != Guid && property.key && !property.required {
          continue;
        }
        if property.readOnly == Some(true) {
          continue;
        }
        if property.name == "Id" && !property.required && property.propertyType != Guid {
          continue;
        }
        ghost var before := sb.text;
        assert slots[i] == Some(ColumnName(encapsulation, property));
        sb.Append(ColumnName(encapsulation, property));
        if i < |props| - 1 {
          sb.Append(", ");
        }
        RawUpToNext(start, slots, i, before, sb.text);
      }
      TrimTrailingSeparator(sb);
    }

    /** `BuildInsertValues(entity, sb)`: the same walk as
        `BuildInsertParameters`, writing `@Name` instead of the column. */
    method BuildInsertValues(t: EntityType, sb: StringBuilder)
      modifies sb
      ensures var props := ScaffoldableProperties(t);
        sb.text == TrimSeparator(old(sb.text) + RawUpTo(ParamSlots(props), |props|))
    {
      var props := ScaffoldableProperties(t);
      ghost var start := sb.text;
      ghost var slots := ParamSlots(props);
      for i := 0 to |props|
        invariant sb.text == start + RawUpTo(slots, i)
      {
        var property := props[i];
        if property.propertyType != Guid && property.key && !property.required {
          continue;
        }
        if property.readOnly == Some(true) {
          continue;
        }
        if property.name == "Id" && !property.required && property.propertyType != Guid {
          continue;
        }
        ghost var before := sb.text;
        sb.Append("@" + property.name);
        if i < |props| - 1 {
          sb.Append(", ");
        }
        RawUpToNext(start, slots, i, before, sb.text);
      }
      TrimTrailingSeparator(sb);
    }

    /** Drops one trailing ", " separator left by a skipped last property. */
    static method TrimTrailingSeparator(sb: StringBuilder)
      modifies sb
      ensures sb.text == TrimSeparator(old(sb.text))
    {
      if EndsWith(sb.text, ", ") {
        sb.Remove(sb.Length() - 2, 2);
        assert sb.text == old(sb.text)[..|old(sb.text)| - 2];
      }
    }

    // ----- the connection-free builders of SimpleCRUDSQL.cs -----

    /** `"Select " + select list + " from " + table`, appended to `sb`. */
    method AppendSelectHead(sb: StringBuilder, t: EntityType)
      modifies sb
      ensures sb.text == old(sb.text) + SelectHead(encapsulation, t)
    {
      ghost var start := sb.text;
      sb.Append("Select ");
      BuildSelect(sb, ScaffoldableProperties(t));
      sb.Append(" from " + TableName(encapsulation, t));
      assert sb.text == start + ("Select " + SelectList(encapsulation, ScaffoldableProperties(t)) +
                                 (" from " + TableName(encapsulation, t)));
    }

    /** `GetByIdSql`. */
    method GetByIdSql(t: EntityType) returns (r: Result<string>)
      ensures r == GetByIdText(encapsulation, t)
    {
      var idProps := IdProperties(t);
      if |idProps| == 0 {
        return Throws(ArgumentException(GetNoKey));
      }
      if |idProps| > 1 {
        return Throws(ArgumentException(GetManyKeys));
      }
      var onlyKey := idProps[0];
      var sb := new StringBuilder();
      AppendSelectHead(sb, t);
      assert sb.text == SelectHead(encapsulation, t);
      sb.Append(" where " + ColumnName(encapsulation, onlyKey) + " = @Id");
      return Ok(sb.ToText());
    }

    /** `GetListSql(whereConditions)`. */
    method GetListSql(t: EntityType, whereConditions: Option<seq<Property>>) returns (r: Result<string>)
      ensures r == ListText(encapsulation, t, ConditionProperties(whereConditions))
    {
      var idProps := IdProperties(t);
      if |idProps| == 0 {
        return Throws(ArgumentException(ListNoKey));
      }
      var sb := new StringBuilder();
      var whereprops := ConditionProperties(whereConditions);
      AppendSelectHead(sb, t);
      assert sb.text == SelectHead(encapsulation, t);
      if |whereprops| > 0 {
        sb.Append(" where ");
        BuildWhere(sb, whereprops, t);
      }
      return Ok(sb.ToText());
    }

    /** `InsertSql(entity)`: the guards and the statement, nothing else. */
    method InsertSql(t: EntityType) returns (r: Result<string>)
      ensures r == InsertText(encapsulation, t)
    {
      var idProps := IdProperties(t);
      if |idProps| == 0 {
        return Throws(ArgumentException(InsertNoKey));
      }
      if |idProps| > 1 {
        return Throws(ArgumentException(InsertManyKeys));
      }
      var text := AppendInsert(t);
      return Ok(text);
    }

    /** The statement part shared by `Insert` and `InsertSql`. */
    method AppendInsert(t: EntityType) returns (text: string)
      requires |IdProperties(t)| == 1
      ensures Ok(text) == InsertText(encapsulation, t)
    {
      var sb := new StringBuilder();
      sb.Append("insert into " + TableName(encapsulation, t));
      assert sb.text == "insert into " + TableName(encapsulation, t);
      sb.Append(" (");
      BuildInsertParameters(t, sb);
      assert sb.text == InsertColumnsPart(encapsulation, t);
      sb.Append(") ");
      sb.Append("values");
      sb.Append(" (");
      BuildInsertValues(t, sb);
      assert sb.text == InsertValuesPart(encapsulation, t);
      sb.Append(")");
      text := sb.ToText();
      InsertTextUnfolds(encapsulation, t);
    }

    /** `UpdateSql`. */
    method UpdateSql(t: EntityType) returns (r: Result<string>)
      ensures r == UpdateText(encapsulation, t)
    {
      var idProps := IdProperties(t);
      if |idProps| == 0 {
        return Throws(ArgumentException(EntityNoKey));
      }
      var sb := new StringBuilder();
      sb.Append("update " + TableName(encapsulation, t));
      assert sb.text == "update " + TableName(encapsulation, t);
      sb.Append(" set ");
      BuildUpdateSet(t, sb);
      sb.Append(" where ");
      BuildWhere(sb, idProps, t);
      return Ok(sb.ToText());
    }

    /** `DeleteSql`. */
    method DeleteSql(t: EntityType) returns (r: Result<string>)
      ensures r == DeleteText(encapsulation, t)
    {
      var idProps := IdProperties(t);
      if |idProps| == 0 {
        return Throws(ArgumentException(EntityNoKey));
      }
      var sb := new StringBuilder();
      sb.Append("delete from " + TableName(encapsulation, t));
      assert sb.text == "delete from " + TableName(encapsulation, t);
      sb.Append(" where ");
      BuildWhere(sb, idProps, t);
      return Ok(sb.ToText());
    }

    /** `DeleteByIdSql`. */
    method DeleteByIdSql(t: EntityType) returns (r: Result<string>)
      ensures r == DeleteByIdText(encapsulation, t)
    {
      var idProps := IdProperties(t);
      if |idProps| == 0 {
        return Throws(ArgumentException(DeleteNoKey));
      }
      if |idProps| > 1 {
        return Throws(ArgumentException(DeleteManyKeys));
      }
      var onlyKey := idProps[0];
      var sb := new StringBuilder();
      sb.Append("Delete from " + TableName(encapsulation, t));
      assert sb.text == "Delete from " + TableName(encapsulation, t);
      sb.Append(" where " + ColumnName(encapsulation, onlyKey) + " = @Id");
      return Ok(sb.ToText());
    }

    // ----- the public operations, up to the hand-over to Dapper -----

    /** `Get<T>(id)`: the by-id query with `@id` bound to `id`. */
    method Get(t: EntityType, id: Value) returns (r: Result<Command>)
      ensures r == WithArgs(GetByIdText(encapsulation, t), IdArg(id))
    {
      var text := GetByIdSql(t);
      r := WithArgs(text, IdArg(id));
    }

    /** `GetList<T>(whereConditions)`: the condition object supplies the
        parameters. */
    method GetList(t: EntityType, whereConditions: Option<seq<Property>>) returns (r: Result<Command>)
      ensures r == WithArgs(ListText(encapsulation, t, ConditionProperties(whereConditions)), ObjectArgs)
    {
      var text := GetListSql(t, whereConditions);
      r := WithArgs(text, ObjectArgs);
    }

    /** `GetList<T>()`: the conditions form with an empty conditions object. */
    method GetListAll(t: EntityType) returns (r: Result<Command>)
      ensures r == WithArgs(ListText(encapsulation, t, []), ObjectArgs)
    {
      r := GetList(t, Some([]));
    }

    /** `GetList<T>(conditions)`: the caller's SQL appended after a space. */
    method GetListWhere(t: EntityType, conditions: string) returns (r: Result<Command>)
      ensures r == WithArgs(ListWhereText(encapsulation, t, conditions), NoArgs)
    {
      var idProps := IdProperties(t);
      if |idProps| == 0 {
        return Throws(ArgumentException(ListNoKey));
      }
      var sb := new StringBuilder();
      AppendSelectHead(sb, t);
      assert sb.text == SelectHead(encapsulation, t);
      sb.Append(" " + conditions);
      return Ok(Command(sb.ToText(), NoArgs));
    }

    /** `GetListPaged<T>(pageNumber, rowsPerPage, conditions, orderby)`. */
    method GetListPaged(t: EntityType, pageNumber: int, rowsPerPage: int, conditions: string, orderby: string)
      returns (r: Result<Command>)
      ensures r == WithArgs(PagedText(D.Flatten(pagedListSql), encapsulation, t, pageNumber, rowsPerPage, conditions, orderby),
                            NoArgs)
    {
      var template := D.Flatten(pagedListSql);
      if IsNullOrEmpty(template) {
        return Throws(GeneralException(PagingUnsupported));
      }
      if pageNumber < 1 {
        return Throws(GeneralException(PageTooSmall));
      }
      var idProps := IdProperties(t);
      if |idProps| == 0 {
        return Throws(ArgumentException(ListNoKey));
      }
      var name := TableName(encapsulation, t);
      var sb := new StringBuilder();
      var query := template;
      var orderBy := orderby;
      if IsNullOrEmpty(orderBy) {
        orderBy := idProps[0].name;
      }
      BuildSelect(sb, ScaffoldableProperties(t));
      assert sb.text == SelectList(encapsulation, ScaffoldableProperties(t));
      ghost var args := PagedArgs(sb.text, name, conditions, orderBy, pageNumber, rowsPerPage);
      query := Replace(query, "{SelectColumns}", sb.ToText());
      query := Replace(query, "{TableName}", name);
      query := Replace(query, "{PageNumber}", IntToString(pageNumber));
      query := Replace(query, "{RowsPerPage}", IntToString(rowsPerPage));
      query := Replace(query, "{OrderBy}", orderBy);
      query := Replace(query, "{WhereClause}", conditions);
      assert query == ReplaceChain(template, args);
      return Ok(Command(query, NoArgs));
    }

    /** While the fields hold the dialect's profile the paging template is
        that dialect's, and it is never empty: by `PagedTextNeedsTemplate`,
        the "not supported" check that opens `GetListPaged` never fires. */
    lemma PagingSupported()
      requires Valid()
      ensures D.Flatten(pagedListSql) == D.PagedTemplate(dialect)
      ensures !IsNullOrEmpty(D.Flatten(pagedListSql))
    {
      D.ProfilesAreComplete(dialect);
      assert pagedListSql == D.ProfileFor(dialect).pagedListSql;
    }

    /** `Insert<TKey>(entity)`, with `keyType` = `TKey`, `random` the bytes
        of `Guid.NewGuid()` and `clock` the value of `DateTime.Now`. */
    method Insert(entity: Entity, keyType: ClrType, random: GuidBytes, clock: Clock) returns (r: Result<Command>, result: KeySource)
      modifies entity
      ensures var spec := InsertSpec(encapsulation, identitySql, entity.etype, old(entity.values), keyType, random, clock);
        (spec.Throws? ==> r == Throws(spec.error) && entity.values == old(entity.values)) &&
        (spec.Ok? ==> r == Ok(spec.value.command) && result == spec.value.result && entity.values == spec.value.values)
    {
      var t := entity.etype;
      var idProps := IdProperties(t);
      result := DatabaseIdentity;
      if |idProps| == 0 {
        return Throws(ArgumentException(InsertNoKey)), result;
      }
      if |idProps| > 1 {
        return Throws(ArgumentException(InsertManyKeys)), result;
      }
      var keytype := Unwrap(keyType);
      if !AllowedKeyType(keytype) {
        return Throws(GeneralException(InvalidReturnType)), result;
      }
      var text := AppendInsert(t);
      var sb := new StringBuilder();
      sb.Append(text);
      assert sb.text == text;
      InsertSpecAfterGuards(encapsulation, identitySql, t, entity.values, keyType, random, clock);
      var outcome;
      outcome, result := HandleInsertKey(entity, idProps[0].name, keytype, random, clock, sb);
      if outcome.Fails? {
        return Throws(outcome.error), result;
      }
      r := Ok(Command(sb.ToText(), ObjectArgs));
    }

    /** The key handling at the end of `Insert`, after the statement text:
        a Guid key is unboxed, replaced when empty, and selected back; an int
        or long key that converts to 0 makes the statement fetch the identity;
        and the key to return is chosen. */
    /** The Guid branch of `Insert`: unbox the key, replace an empty Guid by
        a sequential one, and append the select of the key. */
    method ReplaceEmptyGuid(entity: Entity, name: string, random: GuidBytes, clock: Clock, sb: StringBuilder)
      returns (r: Outcome, keyHasPredefinedValue: bool)
      modifies entity, sb
      ensures var key := ValueOf(old(entity.values), name);
        var g := GuidKey(key, random, clock);
        (g.Throws? ==> r == Fails(g.error) && entity.values == old(entity.values)) &&
        (g.Ok? ==> r == Done && sb.text == old(sb.text) + g.value.1 &&
                   (keyHasPredefinedValue <==> key != GuidValue(EmptyGuid)) &&
                   ValueOf(entity.values, name) == GuidValue(g.value.0) &&
                   entity.values == if key == GuidValue(EmptyGuid)
                                    then old(entity.values)[name := GuidValue(g.value.0)] else old(entity.values))
    {
      var guidvalue := ValueOf(entity.values, name);
      if guidvalue.NullValue? {
        return Fails(NullReferenceException), false;
      }
      if guidvalue.IntValue? {
        return Fails(InvalidCastException), false;
      }
      keyHasPredefinedValue := false;
      if guidvalue.g == EmptyGuid {
        var newguid := SequentialGuid(random, clock);
        entity.values := entity.values[name := GuidValue(newguid)];
      } else {
        keyHasPredefinedValue := true;
      }
      sb.Append(";select '" + GuidText(ValueOf(entity.values, name).g) + "' as id");
      r := Done;
    }

    method HandleInsertKey(entity: Entity, name: string, keytype: ClrType, random: GuidBytes, clock: Clock,
                           sb: StringBuilder)
      returns (r: Outcome, result: KeySource)
      modifies entity, sb
      ensures var key := ValueOf(old(entity.values), name);
        var h := HandleKey(keytype, key, identitySql, random, clock);
        (h.Throws? ==> r == Fails(h.error) && entity.values == old(entity.values)) &&
        (h.Ok? ==> r == Done && sb.text == old(sb.text) + h.value.appended && result == h.value.result &&
                   entity.values == if keytype == Guid && key == GuidValue(EmptyGuid)
                                    then old(entity.values)[name := h.value.key] else old(entity.values))
    {
      var keyHasPredefinedValue := false;
      result := DatabaseIdentity;
      ghost var key := ValueOf(entity.values, name);
      ghost var start := sb.text;
      ghost var select := "";
      if keytype == Guid {
        r, keyHasPredefinedValue := ReplaceEmptyGuid(entity, name, random, clock, sb);
        if r.Fails? {
          return r, result;
        }
        select := GuidKey(key, random, clock).value.1;
      }
      ghost var key' := ValueOf(entity.values, name);
      assert keytype != Guid ==> key' == key && entity.values == old(entity.values);
      ghost var identity := "";
      if keytype == Int32 || keytype == Int64 {
        var converted := ToInt64(ValueOf(entity.values, name));
        if converted.Throws? {
          return Fails(converted.error), result;
        }
        if converted.value == 0 {
          identity := ";" + identitySql;
          sb.Append(";" + identitySql);
        } else {
          keyHasPredefinedValue := true;
        }
      } else {
        keyHasPredefinedValue := true;
      }
      AppendAssoc(start, select, identity);
      if keytype == Guid || keyHasPredefinedValue {
        result := EntityKey(ValueOf(entity.values, name));
      } else {
        result := DatabaseIdentity;
      }
      assert IdentityPart(keytype, key', identitySql) == Ok((identity, result));
      r := Done;
    }

    /** `Update(entity)`: the entity supplies the parameters. */
    method Update(t: EntityType) returns (r: Result<Command>)
      ensures r == WithArgs(UpdateText(encapsulation, t), ObjectArgs)
    {
      var text := UpdateSql(t);
      r := WithArgs(text, ObjectArgs);
    }

    /** `Delete(entity)`: the entity supplies the parameters. */
    method Delete(t: EntityType) returns (r: Result<Command>)
      ensures r == WithArgs(DeleteText(encapsulation, t), ObjectArgs)
    {
      var text := DeleteSql(t);
      r := WithArgs(text, ObjectArgs);
    }

    /** `Delete<T>(id)`: the by-id delete with `@id` bound to `id`. */
    method DeleteById(t: EntityType, id: Value) returns (r: Result<Command>)
      ensures r == WithArgs(DeleteByIdText(encapsulation, t), IdArg(id))
    {
      var text := DeleteByIdSql(t);
      r := WithArgs(text, IdArg(id));
    }

    /** `DeleteList<T>(conditions)`: both guards run before any text is
        built. */
    method DeleteList(t: EntityType, conditions: string) returns (r: Result<Command>)
      ensures r == WithArgs(DeleteListText(encapsulation, t, conditions), NoArgs)
    {
      if IsNullOrEmpty(conditions) {
        return Throws(ArgumentException(DeleteListNoWhere));
      }
      if !Contains(ToLower(conditions), "where") {
        return Throws(ArgumentException(DeleteListNoKeyword));
      }
      var sb := new StringBuilder();
      sb.Append("Delete from " + TableName(encapsulation, t));
      assert sb.text == "Delete from " + TableName(encapsulation, t);
      sb.Append(" " + conditions);
      return Ok(Command(sb.ToText(), NoArgs));
    }

    /** `RecordCount<T>(conditions)`. */
    method RecordCount(t: EntityType, conditions: string) returns (r: Command)
      ensures r == Command(RecordCountText(encapsulation, t, conditions), NoArgs)
    {
      var sb := new StringBuilder();
      sb.Append("Select count(1)");
      sb.Append(" from " + TableName(encapsulation, t));
      sb.Append(" " + conditions);
      r := Command(sb.ToText(), NoArgs);
    }
  }
}
