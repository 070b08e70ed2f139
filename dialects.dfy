/** The dialect profile: for each supported database, how identifiers are
    quoted, which statement fetches the identity of the inserted row, and the
    template a paged query is built from (SimpleCRUD.cs, SetDialect,
    GetDialect and Encapsulate). */
module Dialects {
  import opened Strings

  /** `SimpleCRUD.Dialect`. */
  datatype Dialect = SQLServer | PostgreSQL | SQLite | MySQL

  /** `Dialect.ToString()`. */
  function Name(d: Dialect): string
  {
    match d
    case SQLServer => "SQLServer"
    case PostgreSQL => "PostgreSQL"
    case SQLite => "SQLite"
    case MySQL => "MySQL"
  }

  /** The two quoting formats `SetDialect` ever assigns to `_encapsulation`:
      `"{0}"` (bare identifiers) and `"[{0}]"` (SQL Server brackets). */
  datatype Quoting = Bare | Brackets

  /** The composite-format string each quoting stands for. */
  function QuotingFormat(q: Quoting): string
  {
    match q
    case Bare => "{0}"
    case Brackets => "[{0}]"
  }

  /** The four static fields `SetDialect` assigns together. */
  datatype Profile = Profile(dialect: Dialect, quoting: Quoting, identitySql: string, pagedListSql: seq<Piece>)

  /** The statement that reads back the identity of the row just inserted. */
  function IdentitySql(d: Dialect): string
  {
    match d
    case PostgreSQL => "SELECT LASTVAL() AS id"
    case SQLite => "SELECT LAST_INSERT_ROWID() AS id"
    case MySQL => "SELECT last_insert_id() AS id"
    case SQLServer => "SELECT CAST(SCOPE_IDENTITY()  AS BIGINT) AS [id]"
  }

  /** The paged-query template, spelled as its literal runs and placeholders
      (see `LimitOffsetPieces` and its siblings below). */
  function PagedTemplate(d: Dialect): string
  {
    Flatten(PiecesFor(d))
  }

  /** The switch in `SetDialect`: PostgreSQL, SQLite and MySQL get bare
      identifiers and LIMIT paging, and every other value falls back to
      SQL Server's bracket quoting, SCOPE_IDENTITY and ROW_NUMBER paging. */
  function ProfileFor(d: Dialect): (p: Profile)
    ensures p.dialect == d
    ensures p.quoting == Brackets <==> d == SQLServer
  {
    var q := if d == SQLServer then Brackets else Bare;
    Profile(d, q, IdentitySql(d), PiecesFor(d))
  }

  /** The dialect names are distinct, so the name `GetDialect` reports
      identifies the dialect that was set. */
  lemma NameIdentifiesDialect(d: Dialect, e: Dialect)
    ensures Name(d) == Name(e) <==> d == e
  {
  }

  /** Every dialect supports identity fetching and paging: the identity
      fragment and the paged template are never empty. */
  lemma ProfilesAreComplete(d: Dialect)
    ensures |ProfileFor(d).identitySql| > 0
    ensures Flatten(ProfileFor(d).pagedListSql) == PagedTemplate(d) && |PagedTemplate(d)| > 0
  {
  }

  /** `string.Format(encapsulation, word)` for the two formats: the word
      itself, or the word in brackets. */
  function Encapsulate(q: Quoting, word: string): string
  {
    match q
    case Bare => word
    case Brackets => "[" + word + "]"
  }

  /** Quoting is `string.Format` with the quoting's format string: its one
      `{0}` slot is replaced by the word and the rest is copied. */
  lemma EncapsulateIsFormat(q: Quoting, word: string)
    ensures Encapsulate(q, word) == Replace(QuotingFormat(q), "{0}", word)
  {
    if q == Bare {
      ReplaceAtFront("{0}", "", word);
      assert QuotingFormat(q) == "{0}" + "";
      assert word + "" == word;
    } else {
      ReplaceSkipsPrefix("[", "{0}]", "{0}", word);
      ReplaceAtFront("{0}", "]", word);
      assert QuotingFormat(q) == "[" + ("{0}" + "]");
      assert Replace("]", "{0}", word) == "]";
    }
  }

  /** The word inside a quoted name: the name itself, or the name without
      its first and last character. */
  function Unquote(q: Quoting, name: string): string
  {
    match q
    case Bare => name
    case Brackets => if |name| >= 2 then name[1..|name| - 1] else name
  }

  /** Quoting wraps the word and nothing else: brackets add exactly one
      character on each side, and stripping them gives the word back. */
  lemma EncapsulateRoundTrip(q: Quoting, word: string)
    ensures Unquote(q, Encapsulate(q, word)) == word
    ensures q == Brackets ==> (|Encapsulate(q, word)| == |word| + 2 &&
      Encapsulate(q, word)[0] == '[' && Encapsulate(q, word)[|word| + 1] == ']')
  {
    if q == Brackets {
      assert Encapsulate(q, word)[1..|word| + 1] == word;
    }
  }

  /** Quoting is injective: different words stay different once quoted. */
  lemma EncapsulateInjective(q: Quoting, a: string, b: string)
    ensures Encapsulate(q, a) == Encapsulate(q, b) ==> a == b
  {
    EncapsulateRoundTrip(q, a);
    EncapsulateRoundTrip(q, b);
  }

  // ----- paged templates as runs of literal text and placeholders -----

  /** The six placeholders `GetListPaged` substitutes. */
  datatype Placeholder = SelectColumns | TableName | WhereClause | OrderBy | PageNumber | RowsPerPage

  function Marker(ph: Placeholder): (m: string)
    ensures |m| >= 2 && m[0] == '{' && '{' !in m[1..]
  {
    match ph
    case SelectColumns => "{SelectColumns}"
    case TableName => "{TableName}"
    case WhereClause => "{WhereClause}"
    case OrderBy => "{OrderBy}"
    case PageNumber => "{PageNumber}"
    case RowsPerPage => "{RowsPerPage}"
  }

  /** The markers differ in their second character, so none is a prefix of
      text that starts with another. */
  lemma MarkersDiffer(a: Placeholder, b: Placeholder)
    requires a != b
    ensures Marker(a)[1] != Marker(b)[1]
  {
  }

  datatype Piece = Lit(text: string) | Hole(ph: Placeholder)

  function PieceText(p: Piece): string
  {
    match p
    case Lit(s) => s
    case Hole(ph) => Marker(ph)
  }

  /** The text a sequence of pieces spells. */
  function Flatten(ps: seq<Piece>): string
  {
    if |ps| == 0 then "" else PieceText(ps[0]) + Flatten(ps[1..])
  }

  predicate BraceFree(s: string)
  {
    '{' !in s
  }

  /** Literal runs never contain '{', so the only '{' in a template opens a
      placeholder. */
  predicate WellFormed(ps: seq<Piece>)
  {
    forall i :: 0 <= i < |ps| && ps[i].Lit? ==> BraceFree(ps[i].text)
  }

  function LimitOffsetPieces(): seq<Piece>
  {
    [Lit("Select "), Hole(SelectColumns), Lit(" from "), Hole(TableName), Lit(" "), Hole(WhereClause),
     Lit(" Order By "), Hole(OrderBy), Lit(" LIMIT "), Hole(RowsPerPage), Lit(" OFFSET (("), Hole(PageNumber),
     Lit("-1) * "), Hole(RowsPerPage), Lit(")")]
  }

  function MySQLPieces(): seq<Piece>
  {
    [Lit("Select "), Hole(SelectColumns), Lit(" from "), Hole(TableName), Lit(" "), Hole(WhereClause),
     Lit(" Order By "), Hole(OrderBy), Lit(" LIMIT (("), Hole(PageNumber), Lit("-1) * "), Hole(RowsPerPage),
     Lit("),"), Hole(RowsPerPage)]
  }

  function RowNumberPieces(): seq<Piece>
  {
    [Lit("SELECT * FROM (SELECT "), Lit("ROW_NUMBER() OVER(ORDER BY "), Hole(OrderBy), Lit(") AS PagedNumber, "),
     Hole(SelectColumns), Lit(" FROM "), Hole(TableName), Lit(" "), Hole(WhereClause),
     Lit(") AS u WHERE PagedNUMBER BETWEEN (("), Hole(PageNumber), Lit(" - 1) * "), Hole(RowsPerPage),
     Lit(" + 1) AND ("), Hole(PageNumber), Lit(" * "), Hole(RowsPerPage), Lit(")")]
  }

  function PiecesFor(d: Dialect): seq<Piece>
  {
    match d
    case PostgreSQL => LimitOffsetPieces()
    case SQLite => LimitOffsetPieces()
    case MySQL => MySQLPieces()
    case SQLServer => RowNumberPieces()
  }

  lemma LimitOffsetPiecesWellFormed()
    ensures WellFormed(LimitOffsetPieces())
  {
    assert BraceFree("Select ") && BraceFree(" from ") && BraceFree(" ") && BraceFree(" Order By ");
    assert BraceFree(" LIMIT ") && BraceFree(" OFFSET ((") && BraceFree("-1) * ") && BraceFree(")");
  }

  lemma MySQLPiecesWellFormed()
    ensures WellFormed(MySQLPieces())
  {
    assert BraceFree("Select ") && BraceFree(" from ") && BraceFree(" ") && BraceFree(" Order By ");
    assert BraceFree(" LIMIT ((") && BraceFree("-1) * ") && BraceFree("),");
  }

  lemma RowNumberHeadBraceFree()
    ensures BraceFree("SELECT * FROM (SELECT ") && BraceFree("ROW_NUMBER() OVER(ORDER BY ")
  {
    assert BraceFree("SELECT * FROM (SELECT ");
  }

  lemma RowNumberBandBraceFree()
    ensures BraceFree(") AS u WHERE PagedNUMBER BETWEEN ((")
  {
    assert ") AS u WHERE PagedNUMBER BETWEEN ((" == ") AS u WHERE " + "PagedNUMBER BETWEEN ((";
  }

  lemma RowNumberShortBraceFree()
    ensures BraceFree(") AS PagedNumber, ") && BraceFree(" FROM ") && BraceFree(" ")
    ensures BraceFree(" - 1) * ") && BraceFree(" + 1) AND (") && BraceFree(" * ") && BraceFree(")")
  {
    assert BraceFree(") AS PagedNumber, ");
  }

  lemma RowNumberPiecesWellFormed()
    ensures WellFormed(RowNumberPieces())
  {
    RowNumberHeadBraceFree();
    RowNumberBandBraceFree();
    RowNumberShortBraceFree();
  }

  /** In every dialect's paged template the only '{' characters open a
      placeholder. */
  lemma TemplateIsPieces(d: Dialect)
    ensures WellFormed(PiecesFor(d))
  {
    match d
    case PostgreSQL => LimitOffsetPiecesWellFormed();
    case SQLite => LimitOffsetPiecesWellFormed();
    case MySQL => MySQLPiecesWellFormed();
    case SQLServer => RowNumberPiecesWellFormed();
  }

  // ----- what the paged templates select -----

  /** The PagedNumber band the ROW_NUMBER template keeps for a page:
      `((p - 1) * r + 1)` through `(p * r)`. */
  function RowNumberBand(page: int, rows: int): (int, int)
  {
    ((page - 1) * rows + 1, page * rows)
  }

  /** The band holds `rows` row numbers, and the band of the next page starts
      right after this one ends, so pages neither overlap nor leave gaps. */
  lemma RowNumberBandsTile(page: int, rows: int)
    ensures RowNumberBand(page, rows).1 - RowNumberBand(page, rows).0 + 1 == rows
    ensures RowNumberBand(page + 1, rows).0 == RowNumberBand(page, rows).1 + 1
  {
  }

}
