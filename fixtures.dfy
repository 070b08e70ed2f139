/** The entity classes of the test suite (Dapper.SimpleCRUDTests/Tests.cs),
    written as metadata, and what the filters and names make of them. */
module Fixtures {
  import opened Results
  import opened Strings
  import opened Metadata
  import opened SqlText
  import opened FluentMap
  import D = Dialects

  // ----- filters over short literal lists -----

  function Keep<T>(x: T, f: T -> bool): seq<T>
  {
    if f(x) then [x] else []
  }

  lemma FilterCons<T(!new)>(x: T, xs: seq<T>, f: T -> bool)
    ensures Filter([x] + xs, f) == Keep(x, f) + Filter(xs, f)
  {
    assert ([x] + xs)[0] == x && ([x] + xs)[1..] == xs;
  }

  lemma Filter2<T(!new)>(a: T, b: T, f: T -> bool)
    ensures Filter([a, b], f) == Keep(a, f) + Keep(b, f)
  {
    FilterCons(b, [], f);
    assert [b] + [] == [b];
    assert Keep(b, f) + [] == Keep(b, f);
    FilterCons(a, [b], f);
    assert [a] + [b] == [a, b];
  }

  lemma Filter3<T(!new)>(a: T, b: T, c: T, f: T -> bool)
    ensures Filter([a, b, c], f) == Keep(a, f) + (Keep(b, f) + Keep(c, f))
  {
    Filter2(b, c, f);
    FilterCons(a, [b, c], f);
    assert [a] + [b, c] == [a, b, c];
  }

  lemma Filter4<T(!new)>(a: T, b: T, c: T, d: T, f: T -> bool)
    ensures Filter([a, b, c, d], f) == Keep(a, f) + (Keep(b, f) + (Keep(c, f) + Keep(d, f)))
  {
    Filter3(b, c, d, f);
    FilterCons(a, [b, c, d], f);
    assert [a] + [b, c, d] == [a, b, c, d];
  }

  lemma Filter5<T(!new)>(a: T, b: T, c: T, d: T, e: T, f: T -> bool)
    ensures Filter([a, b, c, d, e], f) == Keep(a, f) + (Keep(b, f) + (Keep(c, f) + (Keep(d, f) + Keep(e, f))))
  {
    Filter4(b, c, d, e, f);
    FilterCons(a, [b, c, d, e], f);
    assert [a] + [b, c, d, e] == [a, b, c, d, e];
  }

  // ----- User: [Table("Users")], keyed by convention -----

  const UserId := Plain("Id", Int32)
  const UserName := Plain("Name", String)
  const UserAge := Plain("Age", Int32)
  const UserDayOff := Plain("ScheduledDayOff", Nullable(Enum("DayOfWeek")))
  const User := EntityType("User", [UserId, UserName, UserAge, UserDayOff], Some(TableAttribute("Users", "")))

  /** Without a `[Key]`, the property named "Id" is the key; a nullable enum
      is still a simple column; the table is the `[Table]` name. */
  lemma UserMetadata()
    ensures IdProperties(User) == [UserId]
    ensures ScaffoldableProperties(User) == [UserId, UserName, UserAge, UserDayOff]
    ensures InsertableProperties(User) == [UserName, UserAge, UserDayOff]
    ensures TableName(D.Bare, User) == "Users"
  {
    var ps := User.properties;
    Filter4(UserId, UserName, UserAge, UserDayOff, IsKey);
    assert Filter(ps, IsKey) == [];
    Filter4(UserId, UserName, UserAge, UserDayOff, IsNamedId);
    assert Filter(ps, IsNamedId) == [UserId];
    Filter4(UserId, UserName, UserAge, UserDayOff, NotMarkedReadOnlyEdit);
    assert Filter(ps, NotMarkedReadOnlyEdit) == ps;
    assert IsSimpleType(UserDayOff.propertyType);
    Filter4(UserId, UserName, UserAge, UserDayOff, SimpleOrEditable);
    assert ScaffoldableProperties(User) == ps;
    Filter4(UserId, UserName, UserAge, UserDayOff, Inserted);
    assert Keep(UserId, Inserted) == [];
  }

  // ----- Car: [Key] CarId, a related list, a computed [Editable(false)] -----

  const CarId := Property("CarId", Int32, true, false, None, None, None)
  const CarMake := Plain("Make", String)
  const CarModel := Plain("Model", String)
  const CarUsers := Plain("Users", Class("List<User>"))
  const CarMakeWithModel := Property("MakeWithModel", String, false, false, None, Some(false), None)
  const Car := EntityType("Car", [CarId, CarMake, CarModel, CarUsers, CarMakeWithModel], None)

  /** The `[Key]` int is the id. */
  lemma CarKey()
    ensures IdProperties(Car) == [CarId]
  {
    Filter5(CarId, CarMake, CarModel, CarUsers, CarMakeWithModel, IsKey);
    assert Keep(CarId, IsKey) == [CarId];
    assert Keep(CarMake, IsKey) == [] && Keep(CarModel, IsKey) == [];
    assert Keep(CarUsers, IsKey) == [] && Keep(CarMakeWithModel, IsKey) == [];
  }

  /** The computed property is `[Editable(false)]`. */
  lemma CarEditable()
    ensures Filter(Car.properties, NotMarkedReadOnlyEdit) == [CarId, CarMake, CarModel, CarUsers]
  {
    Filter5(CarId, CarMake, CarModel, CarUsers, CarMakeWithModel, NotMarkedReadOnlyEdit);
    assert Keep(CarMakeWithModel, NotMarkedReadOnlyEdit) == [];
  }

  /** The related list and the `[Editable(false)]` property are not
      columns. */
  lemma CarColumns()
    ensures ScaffoldableProperties(Car) == [CarId, CarMake, CarModel]
  {
    CarEditable();
    SimpleTypeCases(CarUsers.propertyType);
    assert Keep(CarUsers, SimpleOrEditable) == [];
    assert IsSimpleType(Int32) && IsSimpleType(String) by {
      assert SimpleTypes[4] == Int32 && SimpleTypes[12] == String;
    }
    Filter4(CarId, CarMake, CarModel, CarUsers, SimpleOrEditable);
  }

  /** The `[Key]` int is left to the database on insert and never set by
      an update. */
  lemma CarWrites()
    ensures InsertableProperties(Car) == [CarMake, CarModel]
    ensures UpdateableProperties(Car) == [CarMake, CarModel]
  {
    CarColumns();
    var scaffold := [CarId, CarMake, CarModel];
    Filter3(CarId, CarMake, CarModel, Inserted);
    assert Keep(CarId, Inserted) == [];
    Filter3(CarId, CarMake, CarModel, NotNamedId);
    assert Filter(scaffold, NotNamedId) == scaffold;
    Filter3(CarId, CarMake, CarModel, NotKey);
    var unkeyed := [CarMake, CarModel];
    assert Filter(scaffold, NotKey) == unkeyed;
    Filter2(CarMake, CarModel, NotReadOnly);
  }

  lemma Join3(sep: string, a: string, b: string, c: string)
    ensures Join(sep, [a, b, c]) == a + sep + (b + sep + c)
  {
    assert [b, c][1..] == [c];
    assert Join(sep, [b, c]) == b + sep + c;
    assert [a, b, c][1..] == [b, c];
  }

  /** Car's select list with bare quoting: one entry per column, in
      declaration order, separated by ",". */
  lemma CarSelectList()
    ensures SelectList(D.Bare, ScaffoldableProperties(Car)) == "CarId" + "," + ("Make" + "," + "Model")
  {
    CarColumns();
    var items := SelectItems(D.Bare, [CarId, CarMake, CarModel]);
    assert items[0] == "CarId" && items[1] == "Make" && items[2] == "Model";
    assert items == ["CarId", "Make", "Model"];
    Join3(",", "CarId", "Make", "Model");
  }

  /** Car's `Get` text with bare quoting: the select list, the table, and
      the key column against `@Id`. */
  lemma CarGetById()
    ensures GetByIdText(D.Bare, Car) ==
      Ok("Select " + ("CarId" + "," + ("Make" + "," + "Model")) + (" from " + "Car") + (" where " + "CarId" + " = @Id"))
  {
    CarKey();
    CarSelectList();
  }

  // ----- CarLog: [Table("CarLog", Schema = "Log")] -----

  const CarLog := EntityType("CarLog", [Plain("Id", Int32), Plain("LogNotes", String)],
                             Some(TableAttribute("CarLog", "Log")))

  /** The schema is quoted on its own and joined to the table by a dot,
      exactly as a fluent mapper naming the table "Log.CarLog" would. */
  lemma CarLogTableName()
    ensures TableName(D.Bare, CarLog) == "Log.CarLog"
    ensures TableName(D.Brackets, CarLog) == "[Log].[CarLog]"
    ensures QualifiedName(D.Brackets, "Log.CarLog") == TableName(D.Brackets, CarLog)
  {
    QualifiedNameMatchesTableAttribute(D.Brackets, CarLog);
  }

  // ----- City: a [Key] string -----

  const CityName := Property("Name", String, true, false, None, None, None)
  const CityPopulation := Plain("Population", Int32)
  const City := EntityType("City", [CityName, CityPopulation], None)

  /** A `[Key]` that is not a Guid and not `[Required]` is skipped on
      insert, even when it is a string the database cannot generate. */
  lemma CityInsertSkipsKey()
    ensures IdProperties(City) == [CityName]
    ensures InsertableProperties(City) == [CityPopulation]
  {
    Filter2(CityName, CityPopulation, IsKey);
    Filter2(CityName, CityPopulation, NotMarkedReadOnlyEdit);
    Filter2(CityName, CityPopulation, SimpleOrEditable);
    assert ScaffoldableProperties(City) == City.properties;
    Filter2(CityName, CityPopulation, Inserted);
    assert Keep(CityName, Inserted) == [];
  }

  // ----- GUIDTest: a [Key] Guid -----

  const GuidKeyProp := Property("Guid", Guid, true, false, None, None, None)
  const GuidName := Plain("Name", String)
  const GuidTest := EntityType("GUIDTest", [GuidKeyProp, GuidName], None)

  /** A Guid key is supplied by the client, so it is inserted. */
  lemma GuidTestInsertsKey()
    ensures IdProperties(GuidTest) == [GuidKeyProp]
    ensures InsertableProperties(GuidTest) == [GuidKeyProp, GuidName]
  {
    Filter2(GuidKeyProp, GuidName, IsKey);
    Filter2(GuidKeyProp, GuidName, NotMarkedReadOnlyEdit);
    Filter2(GuidKeyProp, GuidName, SimpleOrEditable);
    assert ScaffoldableProperties(GuidTest) == GuidTest.properties;
    Filter2(GuidKeyProp, GuidName, Inserted);
    assert Keep(GuidKeyProp, Inserted) == [GuidKeyProp];
  }

  // ----- StrangeColumnNames: a [Column] rename and an [Editable(false)] -----

  const ItemId := Property("ItemId", Int32, true, false, None, None, None)
  const Word := Plain("Word", String)
  const StrangeWord := Property("StrangeWord", String, false, false, Some("colstringstrangeword"), None, None)
  const ExtraProperty := Property("ExtraProperty", String, false, false, None, Some(false), None)
  const StrangeColumnNames := EntityType("StrangeColumnNames", [ItemId, Word, StrangeWord, ExtraProperty], None)

  /** The `[Editable(false)]` property is not read at all. */
  lemma StrangeColumnNamesColumns()
    ensures ScaffoldableProperties(StrangeColumnNames) == [ItemId, Word, StrangeWord]
  {
    Filter4(ItemId, Word, StrangeWord, ExtraProperty, NotMarkedReadOnlyEdit);
    assert Filter(StrangeColumnNames.properties, NotMarkedReadOnlyEdit) == [ItemId, Word, StrangeWord];
    Filter3(ItemId, Word, StrangeWord, SimpleOrEditable);
  }

  /** The renamed column is read under its stored name and aliased back to
      the property. */
  lemma StrangeWordAlias()
    ensures SelectItem(D.Bare, StrangeWord) == "colstringstrangeword" + " as " + "StrangeWord"
  {
  }

  /** With bracket quoting only the stored name is quoted, not the alias. */
  lemma StrangeWordBracketedAlias()
    ensures SelectItem(D.Brackets, StrangeWord) == "[" + "colstringstrangeword" + "]" + " as " + "StrangeWord"
  {
  }

  /** An unrenamed column is read as it is. */
  lemma WordUnaliased()
    ensures SelectItem(D.Bare, Word) == "Word"
  {
  }
}
