/** The text of a paged query: `GetListPaged` (SimpleCRUD.cs) takes the
    dialect's template and replaces its six placeholders one after the other
    with `string.Replace`. Replacing in sequence is the same as filling every
    placeholder of the template at once, provided no argument introduces a
    '{' that a later replacement could mistake for a placeholder. */
module Paging {
  import opened Strings
  import opened Dialects

  /** What `GetListPaged` substitutes for each placeholder. */
  datatype PagedArgs = PagedArgs(
    selectColumns: string, tableName: string, whereClause: string,
    orderBy: string, pageNumber: int, rowsPerPage: int)

  function ArgFor(a: PagedArgs, ph: Placeholder): string
  {
    match ph
    case SelectColumns => a.selectColumns
    case TableName => a.tableName
    case WhereClause => a.whereClause
    case OrderBy => a.orderBy
    case PageNumber => IntToString(a.pageNumber)
    case RowsPerPage => IntToString(a.rowsPerPage)
  }

  /** The arguments cannot be mistaken for placeholders. */
  predicate PlainArgs(a: PagedArgs)
  {
    BraceFree(a.selectColumns) && BraceFree(a.tableName) && BraceFree(a.whereClause) && BraceFree(a.orderBy)
  }

  /** The six `query = query.Replace(...)` statements, in the order the source
      runs them. */
  function ReplaceChain(template: string, a: PagedArgs): string
  {
    var q1 := Replace(template, "{SelectColumns}", a.selectColumns);
    var q2 := Replace(q1, "{TableName}", a.tableName);
    var q3 := Replace(q2, "{PageNumber}", IntToString(a.pageNumber));
    var q4 := Replace(q3, "{RowsPerPage}", IntToString(a.rowsPerPage));
    var q5 := Replace(q4, "{OrderBy}", a.orderBy);
    Replace(q5, "{WhereClause}", a.whereClause)
  }

  /** The template with every placeholder filled at once: the reference
      definition the replacement chain is compared with. */
  function Fill(ps: seq<Piece>, a: PagedArgs): string
  {
    if |ps| == 0 then ""
    else
      PieceText(ps[0], a) + Fill(ps[1..], a)
  }

  function PieceText(p: Piece, a: PagedArgs): string
  {
    match p
    case Lit(s) => s
    case Hole(ph) => ArgFor(a, ph)
  }

  /** The pieces after one placeholder has been replaced by literal text. */
  function Subst(ps: seq<Piece>, ph: Placeholder, v: string): (r: seq<Piece>)
    ensures |r| == |ps|
  {
    if |ps| == 0 then []
    else [if ps[0] == Hole(ph) then Lit(v) else ps[0]] + Subst(ps[1..], ph, v)
  }

  /** A marker other than the one searched for is copied unchanged. */
  lemma ReplaceSkipsOtherMarker(other: Placeholder, ph: Placeholder, t: string, v: string)
    requires other != ph
    ensures Replace(Marker(other) + t, Marker(ph), v) == Marker(other) + Replace(t, Marker(ph), v)
  {
    MarkersDiffer(other, ph);
    ReplaceSkipsMismatch(Marker(other), t, Marker(ph), v);
  }

  /** One `Replace` of a placeholder's marker is the substitution of that
      placeholder in the pieces, and the result is still well formed. */
  lemma {:induction false} ReplaceIsSubst(ps: seq<Piece>, ph: Placeholder, v: string)
    requires WellFormed(ps) && BraceFree(v)
    ensures Replace(Flatten(ps), Marker(ph), v) == Flatten(Subst(ps, ph, v))
    ensures WellFormed(Subst(ps, ph, v))
  {
    if |ps| > 0 {
      var rest := Flatten(ps[1..]);
      assert WellFormed(ps[1..]) by {
        forall i | 0 <= i < |ps[1..]| && ps[1..][i].Lit?
          ensures BraceFree(ps[1..][i].text)
        {
          assert ps[1..][i] == ps[i + 1];
        }
      }
      ReplaceIsSubst(ps[1..], ph, v);
      var r := Subst(ps, ph, v);
      assert r[1..] == Subst(ps[1..], ph, v);
      match ps[0]
      case Lit(s) =>
        assert BraceFree(ps[0].text);
        ReplaceSkipsPrefix(s, rest, Marker(ph), v);
      case Hole(q) =>
        if q == ph {
          ReplaceAtFront(Marker(ph), rest, v);
        } else {
          ReplaceSkipsOtherMarker(q, ph, rest, v);
        }
      assert WellFormed(r) by {
        forall i | 0 <= i < |r| && r[i].Lit?
          ensures BraceFree(r[i].text)
        {
          if i > 0 {
            assert r[i] == r[1..][i - 1];
          }
        }
      }
    }
  }

  /** Substituting every placeholder with its argument leaves the text that
      `Fill` spells. */
  lemma {:induction false} SubstAllIsFill(ps: seq<Piece>, a: PagedArgs)
    ensures Flatten(Subst(Subst(Subst(Subst(Subst(Subst(ps,
      SelectColumns, a.selectColumns), TableName, a.tableName),
      PageNumber, IntToString(a.pageNumber)), RowsPerPage, IntToString(a.rowsPerPage)),
      OrderBy, a.orderBy), WhereClause, a.whereClause)) == Fill(ps, a)
  {
    if |ps| > 0 {
      SubstAllIsFill(ps[1..], a);
      var p1 := Subst(ps, SelectColumns, a.selectColumns);
      var p2 := Subst(p1, TableName, a.tableName);
      var p3 := Subst(p2, PageNumber, IntToString(a.pageNumber));
      var p4 := Subst(p3, RowsPerPage, IntToString(a.rowsPerPage));
      var p5 := Subst(p4, OrderBy, a.orderBy);
      var p6 := Subst(p5, WhereClause, a.whereClause);
      assert p1[1..] == Subst(ps[1..], SelectColumns, a.selectColumns);
      assert p2[1..] == Subst(p1[1..], TableName, a.tableName);
      assert p3[1..] == Subst(p2[1..], PageNumber, IntToString(a.pageNumber));
      assert p4[1..] == Subst(p3[1..], RowsPerPage, IntToString(a.rowsPerPage));
      assert p5[1..] == Subst(p4[1..], OrderBy, a.orderBy);
      assert p6[1..] == Subst(p5[1..], WhereClause, a.whereClause);
    }
  }

  /** Digits and a minus sign never contain '{'. */
  lemma NumberIsBraceFree(n: int)
    ensures BraceFree(IntToString(n))
  {
  }

  /** The replacement chain `GetListPaged` runs fills every placeholder of
      the dialect's template with its argument. */
  lemma ReplaceChainFills(d: Dialect, a: PagedArgs)
    requires PlainArgs(a)
    ensures ReplaceChain(PagedTemplate(d), a) == Fill(PiecesFor(d), a)
  {
    var p0 := PiecesFor(d);
    TemplateIsPieces(d);
    NumberIsBraceFree(a.pageNumber);
    NumberIsBraceFree(a.rowsPerPage);
    var p1 := Subst(p0, SelectColumns, a.selectColumns);
    var p2 := Subst(p1, TableName, a.tableName);
    var p3 := Subst(p2, PageNumber, IntToString(a.pageNumber));
    var p4 := Subst(p3, RowsPerPage, IntToString(a.rowsPerPage));
    var p5 := Subst(p4, OrderBy, a.orderBy);
    ReplaceIsSubst(p0, SelectColumns, a.selectColumns);
    ReplaceIsSubst(p1, TableName, a.tableName);
    ReplaceIsSubst(p2, PageNumber, IntToString(a.pageNumber));
    ReplaceIsSubst(p3, RowsPerPage, IntToString(a.rowsPerPage));
    ReplaceIsSubst(p4, OrderBy, a.orderBy);
    ReplaceIsSubst(p5, WhereClause, a.whereClause);
    SubstAllIsFill(p0, a);
  }

  // ----- the rows a page keeps -----

  /** Filling a concatenation of pieces fills each part. */
  lemma {:induction false} FillAppend(ps: seq<Piece>, qs: seq<Piece>, a: PagedArgs)
    ensures Fill(ps + qs, a) == Fill(ps, a) + Fill(qs, a)
    decreases |ps|
  {
    if |ps| == 0 {
      assert ps + qs == qs;
    } else {
      FillAppend(ps[1..], qs, a);
      assert (ps + qs)[0] == ps[0];
      assert (ps + qs)[1..] == ps[1..] + qs;
      AppendAssoc(PieceText(ps[0], a), Fill(ps[1..], a), Fill(qs, a));
    }
  }

  /** A filled template ends with the fill of its last pieces. */
  lemma FillEndsWith(ps: seq<Piece>, k: nat, a: PagedArgs)
    requires k <= |ps|
    ensures EndsWith(Fill(ps, a), Fill(ps[k..], a))
  {
    assert ps == ps[..k] + ps[k..];
    FillAppend(ps[..k], ps[k..], a);
    EndsWithAppend(Fill(ps[..k], a), Fill(ps[k..], a));
  }

  /** PostgreSQL and SQLite: the filled query ends
      `LIMIT r OFFSET ((p-1) * r)`, with `p` and `r` the page number and the
      rows per page written in decimal. */
  lemma LimitOffsetClause(a: PagedArgs)
    ensures EndsWith(Fill(LimitOffsetPieces(), a),
      (" LIMIT " + (IntToString(a.rowsPerPage) + (" OFFSET ((" + IntToString(a.pageNumber)))) +
      ("-1) * " + (IntToString(a.rowsPerPage) + ")")))
  {
    var limit := [Lit(" LIMIT "), Hole(RowsPerPage), Lit(" OFFSET (("), Hole(PageNumber)];
    var factor := [Lit("-1) * "), Hole(RowsPerPage), Lit(")")];
    assert LimitOffsetPieces()[8..] == limit + factor;
    LimitOffsetLimit(limit, a);
    OffsetFactor(factor, a);
    FillAppend(limit, factor, a);
    FillEndsWith(LimitOffsetPieces(), 8, a);
  }

  /** `LIMIT r OFFSET ((p`. */
  lemma LimitOffsetLimit(ps: seq<Piece>, a: PagedArgs)
    requires ps == [Lit(" LIMIT "), Hole(RowsPerPage), Lit(" OFFSET (("), Hole(PageNumber)]
    ensures Fill(ps, a) == " LIMIT " + (IntToString(a.rowsPerPage) + (" OFFSET ((" + IntToString(a.pageNumber)))
  {
    var p, r := IntToString(a.pageNumber), IntToString(a.rowsPerPage);
    assert Fill(ps[3..], a) == p;
    assert Fill(ps[2..], a) == " OFFSET ((" + p;
    assert Fill(ps[1..], a) == r + (" OFFSET ((" + p);
  }

  /** `-1) * r)`, the rest of the offset. */
  lemma OffsetFactor(ps: seq<Piece>, a: PagedArgs)
    requires ps == [Lit("-1) * "), Hole(RowsPerPage), Lit(")")]
    ensures Fill(ps, a) == "-1) * " + (IntToString(a.rowsPerPage) + ")")
  {
    assert Fill(ps[2..], a) == ")";
    assert Fill(ps[1..], a) == IntToString(a.rowsPerPage) + ")";
  }

  /** MySQL: the filled query ends `LIMIT ((p-1) * r),r`, an offset and a
      row count. */
  lemma MySQLClause(a: PagedArgs)
    ensures EndsWith(Fill(MySQLPieces(), a),
      " LIMIT ((" + (IntToString(a.pageNumber) + ("-1) * " + (IntToString(a.rowsPerPage) +
      (")," + IntToString(a.rowsPerPage))))))
  {
    var ps := MySQLPieces();
    var p, r := IntToString(a.pageNumber), IntToString(a.rowsPerPage);
    assert Fill(ps[13..], a) == r;
    assert Fill(ps[12..], a) == ")," + r;
    assert Fill(ps[11..], a) == r + ("),"  + r);
    assert Fill(ps[10..], a) == "-1) * " + (r + ("),"  + r));
    assert Fill(ps[9..], a) == p + ("-1) * " + (r + ("),"  + r)));
    assert Fill(ps[8..], a) == " LIMIT ((" + (p + ("-1) * " + (r + ("),"  + r))));
    FillEndsWith(ps, 8, a);
  }

  /** SQL Server: the filled query keeps the rows whose ROW_NUMBER lies
      `BETWEEN ((p - 1) * r + 1) AND (p * r)`. */
  lemma RowNumberClause(a: PagedArgs)
    ensures EndsWith(Fill(RowNumberPieces(), a),
      (") AS u WHERE PagedNUMBER BETWEEN ((" + (IntToString(a.pageNumber) + (" - 1) * " + IntToString(a.rowsPerPage)))) +
      (" + 1) AND (" + (IntToString(a.pageNumber) + (" * " + (IntToString(a.rowsPerPage) + ")")))))
  {
    var lower := [Lit(") AS u WHERE PagedNUMBER BETWEEN (("), Hole(PageNumber), Lit(" - 1) * "), Hole(RowsPerPage)];
    var upper := [Lit(" + 1) AND ("), Hole(PageNumber), Lit(" * "), Hole(RowsPerPage), Lit(")")];
    assert RowNumberPieces()[9..] == lower + upper;
    RowNumberLower(lower, a);
    RowNumberUpper(upper, a);
    FillAppend(lower, upper, a);
    FillEndsWith(RowNumberPieces(), 9, a);
  }

  /** The lower end of the SQL Server band, `BETWEEN ((p - 1) * r`. */
  lemma RowNumberLower(ps: seq<Piece>, a: PagedArgs)
    requires ps == [Lit(") AS u WHERE PagedNUMBER BETWEEN (("), Hole(PageNumber), Lit(" - 1) * "), Hole(RowsPerPage)]
    ensures Fill(ps, a) == ") AS u WHERE PagedNUMBER BETWEEN ((" + (IntToString(a.pageNumber) + (" - 1) * " + IntToString(a.rowsPerPage)))
  {
    var p, r := IntToString(a.pageNumber), IntToString(a.rowsPerPage);
    assert Fill(ps[3..], a) == r;
    assert Fill(ps[2..], a) == " - 1) * " + r;
    assert Fill(ps[1..], a) == p + (" - 1) * " + r);
  }

  /** The upper end of the SQL Server band, `+ 1) AND (p * r)`. */
  lemma RowNumberUpper(ps: seq<Piece>, a: PagedArgs)
    requires ps == [Lit(" + 1) AND ("), Hole(PageNumber), Lit(" * "), Hole(RowsPerPage), Lit(")")]
    ensures Fill(ps, a) ==
      " + 1) AND (" + (IntToString(a.pageNumber) + (" * " + (IntToString(a.rowsPerPage) + ")")))
  {
    var p, r := IntToString(a.pageNumber), IntToString(a.rowsPerPage);
    assert Fill(ps[4..], a) == ")";
    assert Fill(ps[3..], a) == r + ")";
    assert Fill(ps[2..], a) == " * " + (r + ")");
    assert Fill(ps[1..], a) == p + (" * " + (r + ")"));
  }

  /** The 1-based positions (first, last) of the rows a query keeps when it
      skips `offset` rows and takes `count`. */
  function OffsetWindow(offset: int, count: int): (int, int)
  {
    (offset + 1, offset + count)
  }

  /** The rows each dialect's paged query keeps, read off the clause its
      filled template ends with: the LIMIT clauses of PostgreSQL, SQLite and
      MySQL skip `(p - 1) * r` rows and take `r`; SQL Server keeps the
      ROW_NUMBER band. */
  function PageWindow(d: Dialect, page: int, rows: int): (int, int)
  {
    match d
    case PostgreSQL => OffsetWindow((page - 1) * rows, rows)
    case SQLite => OffsetWindow((page - 1) * rows, rows)
    case MySQL => OffsetWindow((page - 1) * rows, rows)
    case SQLServer => RowNumberBand(page, rows)
  }

  /** Every dialect keeps the same rows for a page: `r` of them, and the
      next page starts right after this one ends. */
  lemma OffsetMatchesBand(d: Dialect, page: int, rows: int)
    ensures PageWindow(d, page, rows) == RowNumberBand(page, rows)
    ensures PageWindow(d, page, rows).1 - PageWindow(d, page, rows).0 + 1 == rows
    ensures PageWindow(d, page + 1, rows).0 == PageWindow(d, page, rows).1 + 1
  {
    RowNumberBandsTile(page, rows);
  }
}
