/** The text SimpleCRUD generates, as functions of the dialect's quoting and
    the entity type: the clauses the `Build*` helpers append
    (SimpleCRUD.cs, BuildUpdateSet through BuildInsertParameters) and the
    statements the public operations and the `*Sql` builders assemble from
    them. The imperative builders in `SimpleCrud` are proved to produce
    exactly these texts; the lemmas here say what the texts mean. */
module SqlText {
  import opened Results
  import opened Strings
  import D = Dialects
  import opened Metadata
  import opened Paging

  // ----- select list -----

  /** One select-list entry: the column, aliased back to the property name
      when a `[Column]` attribute renames it. */
  function SelectItem(q: D.Quoting, p: Property): string
  {
    ColumnName(q, p) + (if p.column.Some? then " as " + p.name else "")
  }

  function SelectItems(q: D.Quoting, ps: seq<Property>): (r: seq<string>)
    ensures |r| == |ps|
  {
    seq(|ps|, i requires 0 <= i < |ps| => SelectItem(q, ps[i]))
  }

  /** `BuildSelect`: the entries separated by ",". */
  function SelectList(q: D.Quoting, ps: seq<Property>): string
  {
    Join(",", SelectItems(q, ps))
  }

  /** An entry is the column name alone when there is no `[Column]`
      attribute, and the column name followed by " as " and the property
      name when there is one. */
  lemma SelectItemAlias(q: D.Quoting, p: Property)
    ensures StartsWith(SelectItem(q, p), ColumnName(q, p))
    ensures p.column.None? ==> SelectItem(q, p) == ColumnName(q, p)
    ensures p.column.Some? ==> EndsWith(SelectItem(q, p), " as " + p.name)
    ensures p.column.Some? ==> |SelectItem(q, p)| == |ColumnName(q, p)| + 4 + |p.name|
  {
  }

  /** A name that can stand in a comma-separated list: not empty, no comma,
      not ending in a space. C# identifiers always qualify. */
  predicate PlainName(s: string)
  {
    |s| > 0 && ',' !in s && s[|s| - 1] != ' '
  }

  /** The names a property contributes to the generated lists are plain. */
  predicate PlainProperty(p: Property)
  {
    PlainName(p.name) && PlainName(StoredName(p))
  }

  lemma PlainColumnName(q: D.Quoting, p: Property)
    requires PlainProperty(p)
    ensures PlainName(ColumnName(q, p))
  {
  }

  /** For plain names the select list splits back, at its commas, into one
      entry per property, in order: no entry is lost or doubled and there is
      no trailing separator. */
  lemma SelectListSplits(q: D.Quoting, ps: seq<Property>)
    requires |ps| > 0
    requires forall i :: 0 <= i < |ps| ==> PlainProperty(ps[i])
    ensures Split(SelectList(q, ps), ',') == SelectItems(q, ps)
  {
    var items := SelectItems(q, ps);
    forall i | 0 <= i < |items|
      ensures ',' !in items[i]
    {
      PlainColumnName(q, ps[i]);
    }
    SplitJoin(items, ',');
  }

  // ----- where clause -----

  /** The inner loop of `BuildWhere`: the last property of `source` with the
      same name as `p`, or `p` itself when there is none. */
  function MatchByName(p: Property, source: seq<Property>): (r: Property)
    ensures r.name == p.name
    ensures (forall x :: x in source ==> x.name != p.name) ==> r == p
    ensures (exists x :: x in source && x.name == p.name) ==> r in source
    decreases |source|
  {
    if |source| == 0 then p
    else
      var last := source[|source| - 1];
      if last.name == p.name then last
      else
        assert forall x :: x in source[..|source| - 1] ==> x in source;
        assert forall x :: x in source && x.name == p.name ==> x in source[..|source| - 1];
        MatchByName(p, source[..|source| - 1])
  }

  /** One more round of the inner loop of `BuildWhere`: a later property
      with the same name replaces the one found so far. */
  lemma MatchByNameNext(p: Property, source: seq<Property>, x: nat)
    requires x < |source|
    ensures MatchByName(p, source[..x + 1]) ==
      if source[x].name == p.name then source[x] else MatchByName(p, source[..x])
  {
    assert source[..x + 1][..x] == source[..x];
  }

  /** Property names are unique within a type. */
  predicate UniqueNames(t: EntityType)
  {
    forall i, j :: 0 <= i < |t.properties| && 0 <= j < |t.properties| && t.properties[i].name == t.properties[j].name ==> i == j
  }

  /** A where-condition names a property of the entity: the entity's own
      property is used for the column (so its `[Column]` attribute applies),
      provided the entity reads and writes it. */
  lemma MatchFindsEntityProperty(p: Property, t: EntityType, x: Property)
    requires UniqueNames(t)
    requires x in ScaffoldableProperties(t) && x.name == p.name
    ensures MatchByName(p, ScaffoldableProperties(t)) == x
  {
    var r := MatchByName(p, ScaffoldableProperties(t));
    ScaffoldableMembers(t);
    assert r in t.properties && x in t.properties;
    var i :| 0 <= i < |t.properties| && t.properties[i] == r;
    var j :| 0 <= j < |t.properties| && t.properties[j] == x;
  }

  /** One where entry: the resolved column compared with the parameter named
      after the condition's own property. */
  function WhereItem(q: D.Quoting, p: Property, source: seq<Property>): string
  {
    ColumnName(q, MatchByName(p, source)) + " = @" + p.name
  }

  function WhereItems(q: D.Quoting, ps: seq<Property>, source: seq<Property>): (r: seq<string>)
    ensures |r| == |ps|
  {
    seq(|ps|, i requires 0 <= i < |ps| => WhereItem(q, ps[i], source))
  }

  /** `BuildWhere(sb, ps, entity)`: the entries joined by " and ". */
  function WhereList(q: D.Quoting, ps: seq<Property>, t: EntityType): string
  {
    Join(" and ", WhereItems(q, ps, ScaffoldableProperties(t)))
  }

  /** For the entity's own properties the where entry is `column = @Name`
      with the property's own column. */
  lemma WhereItemOwnProperty(q: D.Quoting, p: Property, t: EntityType)
    requires UniqueNames(t) && p in t.properties
    ensures WhereItem(q, p, ScaffoldableProperties(t)) == ColumnName(q, p) + " = @" + p.name
  {
    ScaffoldableMembers(t);
    if exists x :: x in ScaffoldableProperties(t) && x.name == p.name {
      var x :| x in ScaffoldableProperties(t) && x.name == p.name;
      MatchFindsEntityProperty(p, t, x);
      var i :| 0 <= i < |t.properties| && t.properties[i] == x;
      var j :| 0 <= j < |t.properties| && t.properties[j] == p;
    }
  }

  // ----- update set -----

  function SetItem(q: D.Quoting, p: Property): string
  {
    ColumnName(q, p) + " = @" + p.name
  }

  function SetItems(q: D.Quoting, ps: seq<Property>): (r: seq<string>)
    ensures |r| == |ps|
  {
    seq(|ps|, i requires 0 <= i < |ps| => SetItem(q, ps[i]))
  }

  /** `BuildUpdateSet`: `column = @Name` for every updateable property,
      joined by ", ". */
  function SetList(q: D.Quoting, t: EntityType): string
  {
    Join(", ", SetItems(q, UpdateableProperties(t)))
  }

  /** Nothing the update sets is a key, an "Id" or a read-only property: each
      entry of the set list comes from an updateable property. */
  lemma SetListExcludesKeys(q: D.Quoting, t: EntityType, i: int)
    requires 0 <= i < |SetItems(q, UpdateableProperties(t))|
    ensures exists p :: (p in ScaffoldableProperties(t) && !p.key && p.name != "Id" && p.readOnly != Some(true)
                         && SetItems(q, UpdateableProperties(t))[i] == ColumnName(q, p) + " = @" + p.name)
  {
    var p := UpdateableProperties(t)[i];
    UpdateableMembers(t);
    assert p in UpdateableProperties(t);
  }

  // ----- insert lists -----

  /** The slot of one scaffoldable property in the insert column list: its
      column, or `None` where the builder `continue`s. */
  function ColumnSlot(q: D.Quoting, p: Property): Option<string>
  {
    if SkippedOnInsert(p) then None else Some(ColumnName(q, p))
  }

  /** The slot of one scaffoldable property in the insert parameter list. */
  function ParamSlot(p: Property): Option<string>
  {
    if SkippedOnInsert(p) then None else Some("@" + p.name)
  }

  function ColumnSlots(q: D.Quoting, ps: seq<Property>): (r: seq<Option<string>>)
    ensures |r| == |ps|
    ensures forall i :: 0 <= i < |ps| ==> r[i] == ColumnSlot(q, ps[i])
  {
    if |ps| == 0 then [] else [ColumnSlot(q, ps[0])] + ColumnSlots(q, ps[1..])
  }

  function ParamSlots(ps: seq<Property>): (r: seq<Option<string>>)
    ensures |r| == |ps|
    ensures forall i :: 0 <= i < |ps| ==> r[i] == ParamSlot(ps[i])
  {
    if |ps| == 0 then [] else [ParamSlot(ps[0])] + ParamSlots(ps[1..])
  }

  /** The column of every property, in order. */
  function ColumnNames(q: D.Quoting, ps: seq<Property>): (r: seq<string>)
    ensures |r| == |ps|
    ensures forall i :: 0 <= i < |ps| ==> r[i] == ColumnName(q, ps[i])
  {
    if |ps| == 0 then [] else [ColumnName(q, ps[0])] + ColumnNames(q, ps[1..])
  }

  /** The parameter of every property, in order. */
  function ParamNames(ps: seq<Property>): (r: seq<string>)
    ensures |r| == |ps|
    ensures forall i :: 0 <= i < |ps| ==> r[i] == "@" + ps[i].name
  {
    if |ps| == 0 then [] else ["@" + ps[0].name] + ParamNames(ps[1..])
  }

  /** The texts of the slots that are present, in order. */
  function Kept(slots: seq<Option<string>>): seq<string>
  {
    if |slots| == 0 then []
    else (if slots[0].Some? then [slots[0].value] else []) + Kept(slots[1..])
  }

  lemma {:induction false} KeptSnoc(slots: seq<Option<string>>, x: Option<string>)
    ensures Kept(slots + [x]) == Kept(slots) + (if x.Some? then [x.value] else [])
  {
    if |slots| > 0 {
      assert (slots + [x])[1..] == slots[1..] + [x];
      KeptSnoc(slots[1..], x);
    } else {
      assert slots + [x] == [x];
    }
  }

  /** What the loop of an insert builder has appended after `i` slots: each
      present slot's text, followed by ", " unless it is the very last slot. */
  function RawUpTo(slots: seq<Option<string>>, i: nat): string
    requires i <= |slots|
  {
    if i == 0 then ""
    else
      var piece := match slots[i - 1]
        case None => ""
        case Some(s) => s + (if i - 1 < |slots| - 1 then ", " else "");
      RawUpTo(slots, i - 1) + piece
  }

  /** One round of an insert builder's loop: a skipped slot appends nothing,
      a present one its text and, unless it is the last slot, ", ". */
  lemma RawUpToNext(start: string, slots: seq<Option<string>>, i: nat, before: string, after: string)
    requires i < |slots| && before == start + RawUpTo(slots, i)
    requires slots[i].None? ==> after == before
    requires slots[i].Some? ==> after == before + slots[i].value + (if i < |slots| - 1 then ", " else "")
    ensures after == start + RawUpTo(slots, i + 1)
  {
    if slots[i].Some? {
      AppendAssoc(RawUpTo(slots, i), slots[i].value, if i < |slots| - 1 then ", " else "");
    } else {
      assert RawUpTo(slots, i + 1) == RawUpTo(slots, i) + "";
    }
  }

  /** The trim after the loop: one trailing ", " is removed. */
  function TrimSeparator(s: string): (r: string)
    ensures EndsWith(s, ", ") ==> s == r + ", "
    ensures !EndsWith(s, ", ") ==> r == s
  {
    if EndsWith(s, ", ") then s[..|s| - 2] else s
  }

  /** Before the last slot, the appended text is the kept items joined, plus
      the separator that will follow them. */
  lemma {:induction false} RawBeforeLast(slots: seq<Option<string>>, i: nat)
    requires i < |slots|
    ensures RawUpTo(slots, i) == if |Kept(slots[..i])| == 0 then "" else Join(", ", Kept(slots[..i])) + ", "
  {
    if i > 0 {
      RawBeforeLast(slots, i - 1);
      assert slots[..i] == slots[..i - 1] + [slots[i - 1]];
      KeptSnoc(slots[..i - 1], slots[i - 1]);
      var before := Kept(slots[..i - 1]);
      if slots[i - 1].Some? {
        var x := slots[i - 1].value;
        JoinSnoc(", ", before, x);
        assert RawUpTo(slots, i) == RawUpTo(slots, i - 1) + (x + ", ");
        assert Kept(slots[..i]) == before + [x];
        if |before| > 0 {
          assert RawUpTo(slots, i - 1) + (x + ", ") == (Join(", ", before) + ", " + x) + ", ";
        } else {
          assert before + [x] == [x];
          assert RawUpTo(slots, i - 1) + (x + ", ") == x + ", ";
        }
      } else {
        assert Kept(slots[..i]) == before + [];
        assert before + [] == before;
        assert RawUpTo(slots, i) == RawUpTo(slots, i - 1) + "";
      }
    }
  }

  /** A list whose items are plain never ends in ", ". */
  lemma JoinedPlainNoTrailing(prefix: string, items: seq<string>)
    requires !EndsWith(prefix, ", ") && (|prefix| == 0 || prefix[|prefix| - 1] != ',')
    requires forall k :: 0 <= k < |items| ==> PlainName(items[k])
    ensures !EndsWith(prefix + Join(", ", items), ", ")
  {
    if |items| > 0 {
      var last := items[|items| - 1];
      var joined := Join(", ", items);
      var s := prefix + joined;
      JoinEndsWithLast(", ", items);
      EndsWithLastChar(joined, last);
      assert s[|s| - 1] == joined[|joined| - 1];
      NoSeparatorAtEnd(s);
    } else {
      assert prefix + Join(", ", items) == prefix;
    }
  }

  /** When the last slot is present, the loop's output is exactly the present
      items joined by ", ". */
  lemma RawLastPresent(slots: seq<Option<string>>)
    requires |slots| > 0 && slots[|slots| - 1].Some?
    ensures RawUpTo(slots, |slots|) == Join(", ", Kept(slots))
  {
    var n := |slots|;
    var x := slots[n - 1].value;
    var before := Kept(slots[..n - 1]);
    assert Kept(slots) == before + [x] by {
      assert slots == slots[..n - 1] + [slots[n - 1]];
      KeptSnoc(slots[..n - 1], slots[n - 1]);
    }
    assert RawUpTo(slots, n) == RawUpTo(slots, n - 1) + x;
    RawBeforeLast(slots, n - 1);
    JoinSnoc(", ", before, x);
    if |before| == 0 {
      assert RawUpTo(slots, n - 1) + x == x;
    } else {
      assert RawUpTo(slots, n - 1) == Join(", ", before) + ", ";
    }
  }

  /** When the last slot is skipped, the loop's output is that of the slots
      before it, which ends in the separator unless nothing was kept. */
  lemma RawLastSkipped(slots: seq<Option<string>>)
    requires |slots| > 0 && slots[|slots| - 1].None?
    ensures RawUpTo(slots, |slots|) ==
      if |Kept(slots)| == 0 then "" else Join(", ", Kept(slots)) + ", "
  {
    var n := |slots|;
    var before := Kept(slots[..n - 1]);
    assert Kept(slots) == before by {
      assert slots == slots[..n - 1] + [slots[n - 1]];
      KeptSnoc(slots[..n - 1], slots[n - 1]);
      assert before + [] == before;
    }
    assert RawUpTo(slots, n) == RawUpTo(slots, n - 1) by {
      assert RawUpTo(slots, n) == RawUpTo(slots, n - 1) + "";
    }
    RawBeforeLast(slots, n - 1);
  }

  /** Trimming one trailing separator. */
  lemma TrimOneSeparator(s: string)
    ensures TrimSeparator(s + ", ") == s
  {
    EndsWithAppend(s, ", ");
    assert (s + ", ")[..|s|] == s;
  }

  /** The insert builders produce the present items joined by ", ": the
      separator after the last present item, if any, is trimmed, and nothing
      else is. */
  lemma InsertListIsJoin(prefix: string, slots: seq<Option<string>>)
    requires !EndsWith(prefix, ", ") && (|prefix| == 0 || prefix[|prefix| - 1] != ',')
    requires forall k :: 0 <= k < |Kept(slots)| ==> PlainName(Kept(slots)[k])
    ensures TrimSeparator(prefix + RawUpTo(slots, |slots|)) == prefix + Join(", ", Kept(slots))
  {
    var n := |slots|;
    var raw := RawUpTo(slots, n);
    var joined := prefix + Join(", ", Kept(slots));
    JoinedPlainNoTrailing(prefix, Kept(slots));
    if n > 0 && slots[n - 1].Some? {
      RawLastPresent(slots);
    } else if n == 0 || |Kept(slots)| == 0 {
      if n > 0 {
        RawLastSkipped(slots);
      }
      assert raw == "" && Join(", ", Kept(slots)) == "";
      assert prefix + raw == joined;
    } else {
      RawLastSkipped(slots);
      AppendAssoc(prefix, Join(", ", Kept(slots)), ", ");
      TrimOneSeparator(joined);
    }
  }

  /** The column list and the parameter list keep the same properties, in
      the same order, so the k-th column receives the k-th parameter. */
  lemma InsertListsAlign(q: D.Quoting, ps: seq<Property>)
    ensures Kept(ColumnSlots(q, ps)) == ColumnNames(q, Filter(ps, Inserted))
    ensures Kept(ParamSlots(ps)) == ParamNames(Filter(ps, Inserted))
  {
    ColumnSlotsKeepInserted(q, ps);
    ParamSlotsKeepInserted(ps);
  }

  lemma {:induction false} ColumnSlotsKeepInserted(q: D.Quoting, ps: seq<Property>)
    ensures Kept(ColumnSlots(q, ps)) == ColumnNames(q, Filter(ps, Inserted))
  {
    if |ps| > 0 {
      ColumnSlotsKeepInserted(q, ps[1..]);
      var slots := ColumnSlots(q, ps);
      assert slots[1..] == ColumnSlots(q, ps[1..]);
      if Inserted(ps[0]) {
        assert Filter(ps, Inserted) == [ps[0]] + Filter(ps[1..], Inserted);
        assert ([ps[0]] + Filter(ps[1..], Inserted))[1..] == Filter(ps[1..], Inserted);
      } else {
        assert Filter(ps, Inserted) == Filter(ps[1..], Inserted);
      }
    }
  }

  lemma {:induction false} ParamSlotsKeepInserted(ps: seq<Property>)
    ensures Kept(ParamSlots(ps)) == ParamNames(Filter(ps, Inserted))
  {
    if |ps| > 0 {
      ParamSlotsKeepInserted(ps[1..]);
      var slots := ParamSlots(ps);
      assert slots[1..] == ParamSlots(ps[1..]);
      if Inserted(ps[0]) {
        assert Filter(ps, Inserted) == [ps[0]] + Filter(ps[1..], Inserted);
        assert ([ps[0]] + Filter(ps[1..], Inserted))[1..] == Filter(ps[1..], Inserted);
      } else {
        assert Filter(ps, Inserted) == Filter(ps[1..], Inserted);
      }
    }
  }

  // ----- statements -----

  /** `"Select " + select list + " from " + table`, the head every query
      shares. Each statement below is written as the sequence of appends the
      source performs. */
  function SelectHead(q: D.Quoting, t: EntityType): string
  {
    "Select " + SelectList(q, ScaffoldableProperties(t)) + (" from " + TableName(q, t))
  }

  /** The filter `Get` and `Delete<T>(id)` append: the key column against `@Id`. */
  function KeyFilter(q: D.Quoting, key: Property): string
  {
    " where " + ColumnName(q, key) + " = @Id"
  }

  /** The single-key guard of `Get`, `Insert` and `Delete<T>(id)`. */
  function SingleKey(t: EntityType, none: Message, many: Message): (r: Result<Property>)
    ensures r.Ok? <==> |IdProperties(t)| == 1
    ensures r.Ok? ==> r.value == IdProperties(t)[0] && r.value in t.properties
    ensures |IdProperties(t)| == 0 ==> r == Throws(ArgumentException(none))
    ensures |IdProperties(t)| > 1 ==> r == Throws(ArgumentException(many))
  {
    var ids := IdProperties(t);
    if |ids| == 0 then Throws(ArgumentException(none))
    else if |ids| > 1 then Throws(ArgumentException(many))
    else
      IdPropertiesMembers(t);
      assert ids[0] in ids;
      Ok(ids[0])
  }

  /** `GetByIdSql` (and the text `Get` runs). */
  function GetByIdText(q: D.Quoting, t: EntityType): Result<string>
  {
    match SingleKey(t, GetNoKey, GetManyKeys)
    case Throws(e) => Throws(e)
    case Ok(key) => Ok(SelectHead(q, t) + KeyFilter(q, key))
  }

  /** `GetListSql(whereConditions)` (and the text `GetList(object)` runs);
      `conditions` are the properties of the condition object. */
  function ListText(q: D.Quoting, t: EntityType, conditions: seq<Property>): Result<string>
  {
    if |IdProperties(t)| == 0 then Throws(ArgumentException(ListNoKey))
    else if |conditions| > 0 then Ok(SelectHead(q, t) + " where " + WhereList(q, conditions, t))
    else Ok(SelectHead(q, t))
  }

  /** The text `GetList(string conditions)` runs. */
  function ListWhereText(q: D.Quoting, t: EntityType, conditions: string): Result<string>
  {
    if |IdProperties(t)| == 0 then Throws(ArgumentException(ListNoKey))
    else Ok(SelectHead(q, t) + (" " + conditions))
  }

  /** The text `GetListPaged` runs: the guards, the default ordering by the
      first id property, then the placeholder replacements. */
  function PagedText(template: string, q: D.Quoting, t: EntityType, pageNumber: int, rowsPerPage: int,
                     conditions: string, orderBy: string): Result<string>
  {
    if IsNullOrEmpty(template) then Throws(GeneralException(PagingUnsupported))
    else if pageNumber < 1 then Throws(GeneralException(PageTooSmall))
    else if |IdProperties(t)| == 0 then Throws(ArgumentException(ListNoKey))
    else
      var order := if IsNullOrEmpty(orderBy) then IdProperties(t)[0].name else orderBy;
      Ok(ReplaceChain(template, PagedArgs(SelectList(q, ScaffoldableProperties(t)), TableName(q, t),
                                          conditions, order, pageNumber, rowsPerPage)))
  }

  /** A page query throws the "not supported" exception exactly when the
      template is empty, whatever the other arguments. */
  lemma PagedTextNeedsTemplate(template: string, q: D.Quoting, t: EntityType, pageNumber: int, rowsPerPage: int,
                               conditions: string, orderBy: string)
    ensures PagedText(template, q, t, pageNumber, rowsPerPage, conditions, orderBy) == Throws(GeneralException(PagingUnsupported))
            <==> IsNullOrEmpty(template)
  {
  }

  /** What the insert builder holds once the column list has been appended
      and trimmed of a trailing separator. */
  function InsertColumnsPart(q: D.Quoting, t: EntityType): string
  {
    var props := ScaffoldableProperties(t);
    TrimSeparator(("insert into " + TableName(q, t)) + " (" + RawUpTo(ColumnSlots(q, props), |props|))
  }

  /** What it holds once the parameter list has been appended and trimmed. */
  function InsertValuesPart(q: D.Quoting, t: EntityType): string
  {
    var props := ScaffoldableProperties(t);
    TrimSeparator(InsertColumnsPart(q, t) + ") " + "values" + " (" + RawUpTo(ParamSlots(props), |props|))
  }

  /** `InsertSql` (and the text `Insert` starts from), as the builders
      compute it: each list is trimmed of a trailing separator in place. */
  function InsertText(q: D.Quoting, t: EntityType): Result<string>
  {
    match SingleKey(t, InsertNoKey, InsertManyKeys)
    case Throws(e) => Throws(e)
    case Ok(_) => Ok(InsertValuesPart(q, t) + ")")
  }

  /** `UpdateSql` (and the text `Update` runs). */
  function UpdateText(q: D.Quoting, t: EntityType): Result<string>
  {
    var ids := IdProperties(t);
    if |ids| == 0 then Throws(ArgumentException(EntityNoKey))
    else Ok(("update " + TableName(q, t)) + " set " + SetList(q, t) + " where " + WhereList(q, ids, t))
  }

  /** `DeleteSql` (and the text `Delete(entity)` runs). */
  function DeleteText(q: D.Quoting, t: EntityType): Result<string>
  {
    var ids := IdProperties(t);
    if |ids| == 0 then Throws(ArgumentException(EntityNoKey))
    else Ok(("delete from " + TableName(q, t)) + " where " + WhereList(q, ids, t))
  }

  /** `DeleteByIdSql` (and the text `Delete<T>(id)` runs). */
  function DeleteByIdText(q: D.Quoting, t: EntityType): Result<string>
  {
    match SingleKey(t, DeleteNoKey, DeleteManyKeys)
    case Throws(e) => Throws(e)
    case Ok(key) => Ok(("Delete from " + TableName(q, t)) + KeyFilter(q, key))
  }

  /** The guard of `DeleteList`, checked before anything runs. */
  function DeleteListText(q: D.Quoting, t: EntityType, conditions: string): Result<string>
  {
    if IsNullOrEmpty(conditions) then Throws(ArgumentException(DeleteListNoWhere))
    else if !Contains(ToLower(conditions), "where") then Throws(ArgumentException(DeleteListNoKeyword))
    else Ok(("Delete from " + TableName(q, t)) + (" " + conditions))
  }

  /** The text `RecordCount` runs. */
  function RecordCountText(q: D.Quoting, t: EntityType, conditions: string): string
  {
    "Select count(1)" + (" from " + TableName(q, t)) + (" " + conditions)
  }

  // ----- what the statements mean -----

  /** Fetching by id needs exactly one id property, and then filters on that
      property's column against the `@Id` parameter. */
  lemma GetByIdShape(q: D.Quoting, t: EntityType)
    ensures GetByIdText(q, t).Ok? <==> |IdProperties(t)| == 1
    ensures |IdProperties(t)| == 0 ==> GetByIdText(q, t) == Throws(ArgumentException(GetNoKey))
    ensures |IdProperties(t)| > 1 ==> GetByIdText(q, t) == Throws(ArgumentException(GetManyKeys))
    ensures GetByIdText(q, t).Ok? ==>
      EndsWith(GetByIdText(q, t).value, " where " + ColumnName(q, IdProperties(t)[0]) + " = @Id")
    ensures GetByIdText(q, t).Ok? ==> (GetByIdText(q, t).value ==
      "Select " + SelectList(q, ScaffoldableProperties(t)) + (" from " + TableName(q, t)) +
      (" where " + ColumnName(q, IdProperties(t)[0]) + " = @Id"))
  {
    if |IdProperties(t)| == 1 {
      EndsWithAppend(SelectHead(q, t), KeyFilter(q, IdProperties(t)[0]));
    }
  }

  /** Deleting by id has the same guard and the same filter as fetching by id. */
  lemma DeleteByIdMatchesGetById(q: D.Quoting, t: EntityType)
    ensures DeleteByIdText(q, t).Ok? <==> GetByIdText(q, t).Ok?
    ensures |IdProperties(t)| == 0 ==> DeleteByIdText(q, t) == Throws(ArgumentException(DeleteNoKey))
    ensures |IdProperties(t)| > 1 ==> DeleteByIdText(q, t) == Throws(ArgumentException(DeleteManyKeys))
    ensures DeleteByIdText(q, t).Ok? ==> (DeleteByIdText(q, t).value ==
      "Delete from " + TableName(q, t) + (" where " + ColumnName(q, IdProperties(t)[0]) + " = @Id"))
    ensures DeleteByIdText(q, t).Ok? ==>
      EndsWith(DeleteByIdText(q, t).value, " where " + ColumnName(q, IdProperties(t)[0]) + " = @Id") &&
      EndsWith(GetByIdText(q, t).value, " where " + ColumnName(q, IdProperties(t)[0]) + " = @Id")
  {
    if |IdProperties(t)| == 1 {
      var filter := KeyFilter(q, IdProperties(t)[0]);
      EndsWithAppend("Delete from " + TableName(q, t), filter);
      EndsWithAppend(SelectHead(q, t), filter);
    }
  }

  /** A list query with no condition properties (and so `GetList()`) selects
      the whole table; with condition properties it adds a where clause. */
  lemma ListWhereOnlyWithConditions(q: D.Quoting, t: EntityType, conditions: seq<Property>)
    requires |IdProperties(t)| > 0
    ensures |conditions| == 0 ==> ListText(q, t, conditions) == Ok(SelectHead(q, t))
    ensures |conditions| > 0 ==> (ListText(q, t, conditions).Ok? &&
                                  StartsWith(ListText(q, t, conditions).value, SelectHead(q, t) + " where "))
    ensures |conditions| > 0 && UniqueNames(t) && (forall c :: c in conditions ==> c in t.properties) ==>
      ListText(q, t, conditions) == Ok(SelectHead(q, t) + " where " + Join(" and ", SetItems(q, conditions)))
  {
    if |conditions| > 0 {
      StartsWithAppend(SelectHead(q, t) + " where ", WhereList(q, conditions, t));
      if UniqueNames(t) && (forall c :: c in conditions ==> c in t.properties) {
        OwnWhereList(q, conditions, t);
      }
    }
  }

  /** Deletion of a list runs only when the conditions mention "where" in
      any letter case, at some position. */
  lemma DeleteListGuard(q: D.Quoting, t: EntityType, conditions: string)
    ensures DeleteListText(q, t, conditions).Ok? <==> exists i :: OccursAt(ToLower(conditions), "where", i)
  {
    ContainsIff(ToLower(conditions), "where");
    if exists i :: OccursAt(ToLower(conditions), "where", i) {
      var i :| OccursAt(ToLower(conditions), "where", i);
      assert |ToLower(conditions)| >= 5;
    }
  }

  /** "where" at position `i` of `s`, each letter in either case. */
  predicate WhereAt(s: string, i: int)
  {
    0 <= i && i + 5 <= |s| && forall k :: 0 <= k < 5 ==> s[i + k] == "where"[k] || s[i + k] == "WHERE"[k]
  }

  /** The guard of `DeleteList` stated on the conditions as given: empty
      conditions are refused with one message, conditions without the word
      "where" in any mix of cases with another, and otherwise the statement
      deletes by the conditions verbatim. */
  lemma DeleteListAcceptsAnyCase(q: D.Quoting, t: EntityType, conditions: string)
    ensures DeleteListText(q, t, conditions).Ok? <==> exists i :: WhereAt(conditions, i)
    ensures |conditions| == 0 ==> DeleteListText(q, t, conditions) == Throws(ArgumentException(DeleteListNoWhere))
    ensures |conditions| > 0 && !(exists i :: WhereAt(conditions, i)) ==>
      DeleteListText(q, t, conditions) == Throws(ArgumentException(DeleteListNoKeyword))
    ensures DeleteListText(q, t, conditions).Ok? ==>
      DeleteListText(q, t, conditions).value == "Delete from " + TableName(q, t) + (" " + conditions)
  {
    DeleteListGuard(q, t, conditions);
    var low := ToLower(conditions);
    forall i | 0 <= i && i + 5 <= |conditions|
      ensures OccursAt(low, "where", i) <==> WhereAt(conditions, i)
    {
      forall k | 0 <= k < 5
        ensures low[i + k] == "where"[k] <==> (conditions[i + k] == "where"[k] || conditions[i + k] == "WHERE"[k])
      {
      }
      assert OccursAt(low, "where", i) <==> forall k :: 0 <= k < 5 ==> low[i + k] == "where"[k];
    }
  }

  /** For the entity's own properties the where clause compares each
      property's own column with the parameter of its name, as the set list
      does for its columns. */
  lemma OwnWhereList(q: D.Quoting, ps: seq<Property>, t: EntityType)
    requires UniqueNames(t) && forall p :: p in ps ==> p in t.properties
    ensures WhereList(q, ps, t) == Join(" and ", SetItems(q, ps))
  {
    forall i | 0 <= i < |ps|
      ensures WhereItems(q, ps, ScaffoldableProperties(t))[i] == SetItems(q, ps)[i]
    {
      assert ps[i] in ps;
      WhereItemOwnProperty(q, ps[i], t);
    }
    assert WhereItems(q, ps, ScaffoldableProperties(t)) == SetItems(q, ps);
  }

  /** The id entries of a where clause in particular. */
  lemma IdWhereList(q: D.Quoting, t: EntityType)
    requires UniqueNames(t)
    ensures WhereList(q, IdProperties(t), t) == Join(" and ", SetItems(q, IdProperties(t)))
  {
    IdPropertiesMembers(t);
    OwnWhereList(q, IdProperties(t), t);
  }

  /** No property is both an id and updateable: an update never rewrites
      the columns that select its row. */
  lemma IdsAreNotUpdated(t: EntityType)
    ensures forall p :: p in IdProperties(t) ==> p !in UpdateableProperties(t)
  {
    IdPropertiesMembers(t);
    UpdateableMembers(t);
  }

  /** `UpdateSql`: it needs an id, and then reads
      `update T set c1 = @P1, ... where k1 = @K1 and ...`, setting every
      updateable property and filtering on every id by its own column. */
  lemma UpdateTextReads(q: D.Quoting, t: EntityType)
    requires UniqueNames(t)
    ensures UpdateText(q, t).Ok? <==> |IdProperties(t)| > 0
    ensures UpdateText(q, t).Throws? ==> UpdateText(q, t).error == ArgumentException(EntityNoKey)
    ensures UpdateText(q, t).Ok? ==> (UpdateText(q, t).value ==
      "update " + TableName(q, t) + " set " + Join(", ", SetItems(q, UpdateableProperties(t))) +
      " where " + Join(" and ", SetItems(q, IdProperties(t))))
  {
    IdWhereList(q, t);
  }

  /** `DeleteSql`: it needs an id, and then reads
      `delete from T where k1 = @K1 and ...`, filtering on every id. */
  lemma DeleteTextReads(q: D.Quoting, t: EntityType)
    requires UniqueNames(t)
    ensures DeleteText(q, t).Ok? <==> |IdProperties(t)| > 0
    ensures DeleteText(q, t).Throws? ==> DeleteText(q, t).error == ArgumentException(EntityNoKey)
    ensures DeleteText(q, t).Ok? ==> (DeleteText(q, t).value ==
      "delete from " + TableName(q, t) + " where " + Join(" and ", SetItems(q, IdProperties(t))))
  {
    IdWhereList(q, t);
  }

  /** Counting and listing with the same conditions read the same rows: both
      statements end in the same `from` clause. */
  lemma CountMatchesList(q: D.Quoting, t: EntityType, conditions: string)
    requires |IdProperties(t)| > 0
    ensures var tail := " from " + TableName(q, t) + (" " + conditions);
      EndsWith(RecordCountText(q, t, conditions), tail) &&
      ListWhereText(q, t, conditions).Ok? && EndsWith(ListWhereText(q, t, conditions).value, tail)
  {
    var from, rest := " from " + TableName(q, t), " " + conditions;
    AppendAssoc("Select count(1)", from, rest);
    EndsWithAppend("Select count(1)", from + rest);
    var select := "Select " + SelectList(q, ScaffoldableProperties(t));
    assert SelectHead(q, t) == select + from;
    AppendAssoc(select, from, rest);
    EndsWithAppend(select, from + rest);
  }

  /** With plain property names, every column and parameter the insert
      lists name is plain. */
  lemma InsertedNamesArePlain(q: D.Quoting, t: EntityType)
    requires forall p :: p in t.properties ==> PlainProperty(p)
    ensures forall k :: 0 <= k < |InsertableProperties(t)| ==>
      PlainName(ColumnNames(q, InsertableProperties(t))[k]) && PlainName(ParamNames(InsertableProperties(t))[k])
  {
    var kept := InsertableProperties(t);
    forall k | 0 <= k < |kept|
      ensures PlainName(ColumnNames(q, kept)[k]) && PlainName(ParamNames(kept)[k])
    {
      InsertedIsOwn(t, kept[k]);
      PlainColumnName(q, kept[k]);
      PlainParamName(kept[k]);
    }
  }

  lemma InsertedIsOwn(t: EntityType, p: Property)
    requires p in InsertableProperties(t)
    ensures p in t.properties
  {
    InsertableMembers(t);
    ScaffoldableMembers(t);
  }

  lemma PlainParamName(p: Property)
    requires PlainProperty(p)
    ensures PlainName("@" + p.name)
  {
    assert ("@" + p.name)[|"@" + p.name| - 1] == p.name[|p.name| - 1];
  }


  /** One insert list after an opening parenthesis: the builder's output,
      trimmed, is the plain names joined. */
  lemma InsertListAfterParen(prefix: string, slots: seq<Option<string>>, names: seq<string>)
    requires |prefix| > 0 && prefix[|prefix| - 1] == '('
    requires Kept(slots) == names
    requires forall k :: 0 <= k < |names| ==> PlainName(names[k])
    ensures TrimSeparator(prefix + RawUpTo(slots, |slots|)) == prefix + Join(", ", names)
  {
    InsertListIsJoin(prefix, slots);
  }

  lemma InsertTextUnfolds(q: D.Quoting, t: EntityType)
    requires |IdProperties(t)| == 1
    ensures InsertText(q, t) == Ok(InsertValuesPart(q, t) + ")")
  {
  }

  /** With plain names, the insert text names exactly the insertable
      columns and passes exactly their parameters, in the same order, each
      list joined by ", " with no trailing separator. */
  lemma InsertTextIsJoin(q: D.Quoting, t: EntityType)
    requires forall p :: p in t.properties ==> PlainProperty(p)
    requires |IdProperties(t)| == 1
    ensures InsertText(q, t) == Ok("insert into " + TableName(q, t) +
      " (" + Join(", ", ColumnNames(q, InsertableProperties(t))) +
      ") " + "values" + " (" + Join(", ", ParamNames(InsertableProperties(t))) + ")")
  {
    var props := ScaffoldableProperties(t);
    var cols, pars := ColumnSlots(q, props), ParamSlots(props);
    var kept := InsertableProperties(t);
    var columns, params := ColumnNames(q, kept), ParamNames(kept);
    assert Kept(cols) == columns && Kept(pars) == params by {
      assert kept == Filter(props, Inserted);
      InsertListsAlign(q, props);
    }
    InsertedNamesArePlain(q, t);
    var p1 := ("insert into " + TableName(q, t)) + " (";
    InsertListAfterParen(p1, cols, columns);
    var p2 := p1 + Join(", ", columns) + ") " + "values" + " (";
    InsertListAfterParen(p2, pars, params);
    assert InsertColumnsPart(q, t) == p1 + Join(", ", columns);
    assert InsertValuesPart(q, t) == p2 + Join(", ", params);
    InsertTextUnfolds(q, t);
  }

  /** The appended keyword pieces `") "`, `"values"`, `" ("` spell `") values ("`. */
  lemma ValuesPieces(before: string, after: string)
    ensures before + ") " + "values" + " (" + after == before + ") values (" + after
  {
    assert ") " + "values" + " (" == ") values (";
  }

  /** The insert text as one reads it: the insertable columns, then the
      keyword `values`, then their parameters. */
  lemma InsertTextReads(q: D.Quoting, t: EntityType)
    requires forall p :: p in t.properties ==> PlainProperty(p)
    requires |IdProperties(t)| == 1
    ensures InsertText(q, t) == Ok("insert into " + TableName(q, t) +
      " (" + Join(", ", ColumnNames(q, InsertableProperties(t))) +
      ") values (" + Join(", ", ParamNames(InsertableProperties(t))) + ")")
  {
    InsertTextIsJoin(q, t);
    ValuesPieces("insert into " + TableName(q, t) + " (" + Join(", ", ColumnNames(q, InsertableProperties(t))),
                 Join(", ", ParamNames(InsertableProperties(t))));
  }

  /** The ordering `GetListPaged` uses: the caller's, or else the name of
      the first id property. */
  function PagedOrder(t: EntityType, orderBy: string): string
    requires |IdProperties(t)| > 0
  {
    if IsNullOrEmpty(orderBy) then IdProperties(t)[0].name else orderBy
  }

  /** The three refusals of `GetListPaged`, in the source's order: no
      template, then a page below 1, then an entity without an id; the
      query is built exactly when all three pass. */
  lemma PagedTextGuards(template: string, q: D.Quoting, t: EntityType, pageNumber: int, rowsPerPage: int,
                        conditions: string, orderBy: string)
    ensures PagedText(template, q, t, pageNumber, rowsPerPage, conditions, orderBy) == Throws(GeneralException(PageTooSmall))
            <==> !IsNullOrEmpty(template) && pageNumber < 1
    ensures PagedText(template, q, t, pageNumber, rowsPerPage, conditions, orderBy) == Throws(ArgumentException(ListNoKey))
            <==> !IsNullOrEmpty(template) && pageNumber >= 1 && |IdProperties(t)| == 0
    ensures PagedText(template, q, t, pageNumber, rowsPerPage, conditions, orderBy).Ok?
            <==> !IsNullOrEmpty(template) && pageNumber >= 1 && |IdProperties(t)| > 0
  {
  }

  /** Past the guards, the paged query is the template with the six
      placeholders replaced in turn; stated for any template, so that a
      caller with a literal template does not unfold it. */
  lemma PagedTextPastGuards(template: string, q: D.Quoting, t: EntityType, pageNumber: int, rowsPerPage: int,
                            conditions: string, orderBy: string)
    requires |template| > 0 && pageNumber >= 1 && |IdProperties(t)| > 0
    ensures PagedText(template, q, t, pageNumber, rowsPerPage, conditions, orderBy) ==
      Ok(ReplaceChain(template, PagedArgs(SelectList(q, ScaffoldableProperties(t)), TableName(q, t), conditions,
                                          PagedOrder(t, orderBy), pageNumber, rowsPerPage)))
  {
  }

  /** With brace-free arguments, the paged query is the dialect's template
      with every placeholder filled: the select list, the table, the
      conditions, the ordering (by default the first id property), the page
      and its size. */
  lemma PagedTextFills(d: D.Dialect, q: D.Quoting, t: EntityType, pageNumber: int, rowsPerPage: int,
                       conditions: string, orderBy: string)
    requires pageNumber >= 1 && |IdProperties(t)| > 0
    requires D.BraceFree(SelectList(q, ScaffoldableProperties(t))) && D.BraceFree(TableName(q, t))
    requires D.BraceFree(conditions) && D.BraceFree(orderBy) && D.BraceFree(IdProperties(t)[0].name)
    ensures PagedText(D.PagedTemplate(d), q, t, pageNumber, rowsPerPage, conditions, orderBy) ==
      Ok(Fill(D.PiecesFor(d), PagedArgs(SelectList(q, ScaffoldableProperties(t)), TableName(q, t), conditions,
                                        PagedOrder(t, orderBy), pageNumber, rowsPerPage)))
  {
    var template := D.PagedTemplate(d);
    assert |template| > 0 by {
      D.ProfilesAreComplete(d);
    }
    var args := PagedArgs(SelectList(q, ScaffoldableProperties(t)), TableName(q, t), conditions,
                          PagedOrder(t, orderBy), pageNumber, rowsPerPage);
    assert PlainArgs(args) by {
      assert D.BraceFree(PagedOrder(t, orderBy));
    }
    PagedTextPastGuards(template, q, t, pageNumber, rowsPerPage, conditions, orderBy);
    ReplaceChainFills(d, args);
  }
}
