/** What `Insert<TKey>` (SimpleCRUD.cs) does around the insert statement:
    it checks the key type it is asked to return, replaces an empty Guid key
    with a sequential Guid, appends a `select` of that Guid, appends the
    dialect's identity fetch when an int or long key is still 0, and decides
    whether it returns the entity's own key or the identity the database
    reports. The statement itself is `SqlText.InsertText`. */
module Inserting {
  import opened Results
  import opened Strings
  import opened Metadata
  import opened SqlText
  import opened Guids
  import D = Dialects

  /** A property value as the insert logic sees it: a boxed integer, a boxed
      Guid, or null. */
  datatype Value = IntValue(n: int) | GuidValue(g: GuidBytes) | NullValue

  /** The parameter source handed to Dapper with the text: nothing, an
      `@id` parameter, or the entity or condition object itself. */
  datatype Args = NoArgs | IdArg(id: Value) | ObjectArgs

  /** A statement ready to run: its text and its parameters. */
  datatype Command = Command(sql: string, args: Args)

  /** The key `Insert` returns: the entity's own key value, or the identity
      the identity fetch reads back from the database. */
  datatype KeySource = EntityKey(key: Value) | DatabaseIdentity

  /** The statement `Insert` runs, what it returns, and the entity's
      property values after the call. */
  datatype InsertCall = InsertCall(command: Command, result: KeySource, values: map<string, Value>)

  /** `GetValue` of a property the map does not hold reads null. */
  function ValueOf(values: map<string, Value>, name: string): Value
  {
    if name in values then values[name] else NullValue
  }

  /** The return types `Insert<TKey>` accepts, after unwrapping `Nullable`. */
  predicate AllowedKeyType(k: ClrType)
  {
    k == Int32 || k == UInt32 || k == Int64 || k == UInt64 || k == Int16 || k == UInt16 || k == Guid
  }

  /** The key types for which a zero key means "let the database choose". */
  predicate IdentityKeyType(k: ClrType)
  {
    k == Int32 || k == Int64
  }

  /** `Convert.ToInt64(value)`: a boxed integer converts to itself, null to
      0, and a Guid cannot be converted. */
  function ToInt64(v: Value): Result<int>
  {
    match v
    case IntValue(n) => Ok(n)
    case NullValue => Ok(0)
    case GuidValue(_) => Throws(InvalidCastException)
  }

  /** The Guid branch: `(Guid)GetValue(...)` unboxes the key (null and
      integers fail), an empty Guid is replaced by `SequentialGuid()`, and
      `;select '<guid>' as id` is appended. Yields the key afterwards and
      the appended text. */
  function GuidKey(key: Value, random: GuidBytes, clock: Clock): Result<(GuidBytes, string)>
  {
    match key
    case NullValue => Throws(NullReferenceException)
    case IntValue(_) => Throws(InvalidCastException)
    case GuidValue(g) =>
      var g' := if g == EmptyGuid then SequentialGuid(random, clock) else g;
      Ok((g', ";select '" + GuidText(g') + "' as id"))
  }

  /** The identity branch, after the Guid branch: for an int or long key
      type whose key converts to 0, `";" + identitySql` is appended and the
      database identity is returned; otherwise the key has a predefined value
      and the entity's key is returned. */
  function IdentityPart(keyType: ClrType, key: Value, identitySql: string): Result<(string, KeySource)>
  {
    if !IdentityKeyType(keyType) then Ok(("", EntityKey(key)))
    else
      match ToInt64(key)
      case Throws(e) => Throws(e)
      case Ok(n) => if n == 0 then Ok((";" + identitySql, DatabaseIdentity)) else Ok(("", EntityKey(key)))
  }

  /** The key handling after the statement text is built: the key the
      entity holds afterwards, the text appended to the statement (the Guid
      select, then the identity fetch) and the key `Insert` returns. */
  datatype KeyHandling = KeyHandling(key: Value, appended: string, result: KeySource)

  function HandleKey(k: ClrType, key: Value, identitySql: string, random: GuidBytes, clock: Clock): Result<KeyHandling>
  {
    var guid := if k == Guid then GuidKey(key, random, clock) else Ok((EmptyGuid, ""));
    match guid
    case Throws(e) => Throws(e)
    case Ok((g, select)) =>
      var key' := if k == Guid then GuidValue(g) else key;
      match IdentityPart(k, key', identitySql)
      case Throws(e) => Throws(e)
      case Ok((identity, result)) => Ok(KeyHandling(key', select + identity, result))
  }

  /** `Insert<TKey>(entity)` for an entity of type `t` holding `values`,
      with `keyType` = `TKey`, `random` the bytes of `Guid.NewGuid()` and
      `clock` the value of `DateTime.Now`. */
  function InsertSpec(q: D.Quoting, identitySql: string, t: EntityType, values: map<string, Value>,
                      keyType: ClrType, random: GuidBytes, clock: Clock): Result<InsertCall>
  {
    match SingleKey(t, InsertNoKey, InsertManyKeys)
    case Throws(e) => Throws(e)
    case Ok(keyProp) =>
      var k := Unwrap(keyType);
      if !AllowedKeyType(k) then Throws(GeneralException(InvalidReturnType))
      else
        var key := ValueOf(values, keyProp.name);
        match HandleKey(k, key, identitySql, random, clock)
        case Throws(e) => Throws(e)
        case Ok(h) =>
          var values' := if k == Guid && key == GuidValue(EmptyGuid) then values[keyProp.name := h.key] else values;
          Ok(InsertCall(Command(InsertText(q, t).value + h.appended, ObjectArgs), h.result, values'))
  }

  /** `InsertSpec` once its guards have passed: the key handling decides the
      outcome, and a successful insert runs the insert text followed by what
      the key handling appends. */
  lemma InsertSpecAfterGuards(q: D.Quoting, identitySql: string, t: EntityType, values: map<string, Value>,
                              keyType: ClrType, random: GuidBytes, clock: Clock)
    requires |IdProperties(t)| == 1 && AllowedKeyType(Unwrap(keyType))
    ensures var name := IdProperties(t)[0].name;
      var h := HandleKey(Unwrap(keyType), ValueOf(values, name), identitySql, random, clock);
      var r := InsertSpec(q, identitySql, t, values, keyType, random, clock);
      (h.Throws? ==> r == Throws(h.error)) &&
      (h.Ok? ==> r == Ok(InsertCall(Command(InsertText(q, t).value + h.value.appended, ObjectArgs), h.value.result,
                                    if Unwrap(keyType) == Guid && ValueOf(values, name) == GuidValue(EmptyGuid)
                                    then values[name := h.value.key] else values)))
  {
  }

  /** What the key handling yields: the identity is fetched exactly for a
      zero int or long key, the returned key is otherwise the key the entity
      ends up holding, and that key changes only when a Guid key was empty. */
  lemma HandleKeyFacts(k: ClrType, key: Value, identitySql: string, random: GuidBytes, clock: Clock)
    requires HandleKey(k, key, identitySql, random, clock).Ok?
    ensures var h := HandleKey(k, key, identitySql, random, clock).value;
      (h.result == DatabaseIdentity <==> IdentityKeyType(k) && ToInt64(key) == Ok(0)) &&
      (h.result == DatabaseIdentity ==> h.appended == ";" + identitySql) &&
      (h.result != DatabaseIdentity ==> h.result == EntityKey(h.key)) &&
      (!(k == Guid && key == GuidValue(EmptyGuid)) ==> h.key == key)
  {
    if k == Guid {
      var g := GuidKey(key, random, clock).value.0;
      assert key.GuidValue?;
      assert key.g != EmptyGuid ==> g == key.g;
    }
  }

  /** The Guid branch on a Guid key: the key afterwards is the sequential
      Guid if the key was empty and the key itself otherwise, and the text
      appended is the select of that Guid. */
  lemma HandleGuidKey(key: GuidBytes, identitySql: string, random: GuidBytes, clock: Clock)
    ensures var new_ := if key == EmptyGuid then SequentialGuid(random, clock) else key;
      HandleKey(Guid, GuidValue(key), identitySql, random, clock) ==
        Ok(KeyHandling(GuidValue(new_), ";select '" + GuidText(new_) + "' as id", EntityKey(GuidValue(new_))))
  {
    var new_ := if key == EmptyGuid then SequentialGuid(random, clock) else key;
    var select := ";select '" + GuidText(new_) + "' as id";
    assert GuidKey(GuidValue(key), random, clock) == Ok((new_, select));
    assert select + "" == select;
  }

  // ----- what Insert promises -----

  /** Only the seven listed key types (nullable or not) are accepted. */
  lemma InsertKeyTypes(q: D.Quoting, identitySql: string, t: EntityType, values: map<string, Value>,
                       keyType: ClrType, random: GuidBytes, clock: Clock)
    requires |IdProperties(t)| == 1
    ensures !AllowedKeyType(Unwrap(keyType)) ==>
      InsertSpec(q, identitySql, t, values, keyType, random, clock) == Throws(GeneralException(InvalidReturnType))
    ensures InsertSpec(q, identitySql, t, values, keyType, random, clock).Ok? ==> AllowedKeyType(Unwrap(keyType))
  {
  }

  /** `Insert` has the same id-count guards as `InsertSql` and fails with
      the same exceptions. */
  lemma InsertGuards(q: D.Quoting, identitySql: string, t: EntityType, values: map<string, Value>,
                     keyType: ClrType, random: GuidBytes, clock: Clock)
    ensures InsertText(q, t).Throws? ==>
      InsertSpec(q, identitySql, t, values, keyType, random, clock) == Throws(InsertText(q, t).error)
    ensures InsertSpec(q, identitySql, t, values, keyType, random, clock).Ok? ==> InsertText(q, t).Ok?
  {
  }

  /** The statement `Insert` runs starts with exactly the text `InsertSql`
      builds; what follows is only the Guid select and the identity fetch. */
  lemma InsertExtendsInsertSql(q: D.Quoting, identitySql: string, t: EntityType, values: map<string, Value>,
                               keyType: ClrType, random: GuidBytes, clock: Clock)
    requires InsertSpec(q, identitySql, t, values, keyType, random, clock).Ok?
    ensures StartsWith(InsertSpec(q, identitySql, t, values, keyType, random, clock).value.command.sql,
                       InsertText(q, t).value)
  {
    var k := Unwrap(keyType);
    var h := HandleKey(k, ValueOf(values, IdProperties(t)[0].name), identitySql, random, clock).value;
    StartsWithAppend(InsertText(q, t).value, h.appended);
  }

  /** The identity is fetched, and the database's identity returned,
      exactly when the key type is int or long and the key converts to 0;
      the statement then ends with `";" + identitySql`. Every other
      successful insert returns the entity's own key. */
  lemma IdentityOnlyForZeroKeys(q: D.Quoting, identitySql: string, t: EntityType, values: map<string, Value>,
                                keyType: ClrType, random: GuidBytes, clock: Clock)
    requires InsertSpec(q, identitySql, t, values, keyType, random, clock).Ok?
    ensures var call := InsertSpec(q, identitySql, t, values, keyType, random, clock).value;
      var key := ValueOf(values, IdProperties(t)[0].name);
      (call.result == DatabaseIdentity <==> IdentityKeyType(Unwrap(keyType)) && ToInt64(key) == Ok(0)) &&
      (call.result == DatabaseIdentity ==> EndsWith(call.command.sql, ";" + identitySql)) &&
      (call.result != DatabaseIdentity ==> call.result == EntityKey(ValueOf(call.values, IdProperties(t)[0].name)))
  {
    var call := InsertSpec(q, identitySql, t, values, keyType, random, clock).value;
    var name := IdProperties(t)[0].name;
    var k := Unwrap(keyType);
    var key := ValueOf(values, name);
    InsertSpecAfterGuards(q, identitySql, t, values, keyType, random, clock);
    HandleKeyFacts(k, key, identitySql, random, clock);
    var h := HandleKey(k, key, identitySql, random, clock).value;
    if call.result == DatabaseIdentity {
      EndsWithAppend(InsertText(q, t).value, ";" + identitySql);
    }
  }

  /** An empty Guid key is replaced by the sequential Guid before the
      statement runs, the statement selects that Guid back, and the entity
      now holds it and returns it; a non-empty Guid key is kept as it is. */
  lemma EmptyGuidReplaced(q: D.Quoting, identitySql: string, t: EntityType, values: map<string, Value>,
                          keyType: ClrType, random: GuidBytes, clock: Clock)
    requires |IdProperties(t)| == 1 && Unwrap(keyType) == Guid
    requires ValueOf(values, IdProperties(t)[0].name).GuidValue?
    ensures var name := IdProperties(t)[0].name;
      var old_ := ValueOf(values, name).g;
      var new_ := if old_ == EmptyGuid then SequentialGuid(random, clock) else old_;
      var r := InsertSpec(q, identitySql, t, values, keyType, random, clock);
      r.Ok? &&
      ValueOf(r.value.values, name) == GuidValue(new_) &&
      r.value.result == EntityKey(GuidValue(new_)) &&
      EndsWith(r.value.command.sql, ";select '" + GuidText(new_) + "' as id") &&
      (old_ != EmptyGuid ==> r.value.values == values)
  {
    var name := IdProperties(t)[0].name;
    var old_ := ValueOf(values, name).g;
    var new_ := if old_ == EmptyGuid then SequentialGuid(random, clock) else old_;
    InsertSpecAfterGuards(q, identitySql, t, values, keyType, random, clock);
    HandleGuidKey(old_, identitySql, random, clock);
    EndsWithAppend(InsertText(q, t).value, ";select '" + GuidText(new_) + "' as id");
  }

  /** A Guid key that is not a Guid at run time makes `Insert` throw before
      anything runs: null fails to unbox, an integer fails to cast. */
  lemma GuidKeyMustBeGuid(q: D.Quoting, identitySql: string, t: EntityType, values: map<string, Value>,
                          keyType: ClrType, random: GuidBytes, clock: Clock)
    requires |IdProperties(t)| == 1 && Unwrap(keyType) == Guid
    ensures ValueOf(values, IdProperties(t)[0].name) == NullValue ==>
      InsertSpec(q, identitySql, t, values, keyType, random, clock) == Throws(NullReferenceException)
    ensures ValueOf(values, IdProperties(t)[0].name).IntValue? ==>
      InsertSpec(q, identitySql, t, values, keyType, random, clock) == Throws(InvalidCastException)
  {
  }

  /** Only the key property may change, and only for a Guid key type. */
  lemma InsertChangesOnlyGuidKey(q: D.Quoting, identitySql: string, t: EntityType, values: map<string, Value>,
                                 keyType: ClrType, random: GuidBytes, clock: Clock)
    requires InsertSpec(q, identitySql, t, values, keyType, random, clock).Ok?
    ensures var after := InsertSpec(q, identitySql, t, values, keyType, random, clock).value.values;
      (Unwrap(keyType) != Guid ==> after == values) &&
      (forall n :: n != IdProperties(t)[0].name ==> ValueOf(after, n) == ValueOf(values, n))
  {
  }
}
