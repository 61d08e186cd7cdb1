/** The WHERE clause that `findByCriteria` builds for ingredients and
    recipes, how the database evaluates it on a row, and what it is meant to
    select: the rows in which every supplied filter occurs in its column,
    ignoring case. */
module Search {
  import opened Optional
  import opened Values
  import Decimal
  import SqlText
  import Sql
  import ILike

  /** One `<column>Like` filter. The empty text stands for a filter that was
      not supplied: `undefined` and `""` are both falsy and skipped. */
  datatype Filter = Filter(column: string, text: string)

  predicate Supplied(f: Filter) {
    f.text != ""
  }

  /** The filter text for a destructured `xLike` property: the text the
      template literal `%${xLike}%` prints when the property is truthy. */
  function FilterText(o: Option<Value>): (t: string)
    ensures t != "" <==> Given(o)
  {
    if Given(o) then ValueText(o.value) else ""
  }

  /** The WHERE text and the bind values built so far. */
  datatype Where = Where(clause: string, values: seq<Value>)

  /** One `if (xLike) { ... }` block: unless the filter is falsy, append
      `" AND "` (when a clause is already there), then `col ILIKE $k` with
      k = values.length + 1, and push `%text%`. */
  function AddFilter(w: Where, f: Filter): Where {
    if !Supplied(f) then w
    else
      var sep := if |w.values| > 0 then " AND " else "";
      Where(w.clause + sep + f.column + " ILIKE $" + Decimal.NatToString(|w.values| + 1),
            w.values + [Str("%" + f.text + "%")])
  }

  /** The blocks run one after another, in the order the filters are listed. */
  function BuildWhere(filters: seq<Filter>): Where {
    if |filters| == 0 then Where("", [])
    else AddFilter(BuildWhere(filters[..|filters| - 1]), filters[|filters| - 1])
  }

  /** The supplied filters, in order. */
  function SuppliedFilters(filters: seq<Filter>): (sup: seq<Filter>)
    ensures forall f :: f in sup <==> f in filters && Supplied(f)
  {
    if |filters| == 0 then []
    else
      var init := filters[..|filters| - 1];
      var last := filters[|filters| - 1];
      assert filters == init + [last];
      SuppliedFilters(init) + (if Supplied(last) then [last] else [])
  }

  /** Some filter is truthy: otherwise the search is `findAll`. */
  predicate AnySupplied(filters: seq<Filter>) {
    exists f :: f in filters && Supplied(f)
  }

  /** The clauses the WHERE text should hold: the i-th supplied filter's
      column with placeholder `$(i+1)`. */
  function Clauses(filters: seq<Filter>): (cs: seq<(string, nat)>)
    ensures |cs| == |SuppliedFilters(filters)|
  {
    var sup := SuppliedFilters(filters);
    seq(|sup|, i requires 0 <= i < |sup| => (sup[i].column, i + 1))
  }

  /** The bind values the WHERE text should come with: `%text%` for the i-th
      supplied filter. */
  function Patterns(filters: seq<Filter>): (ps: seq<Value>)
    ensures |ps| == |SuppliedFilters(filters)|
  {
    var sup := SuppliedFilters(filters);
    seq(|sup|, i requires 0 <= i < |sup| => Str("%" + sup[i].text + "%"))
  }

  /** How the supplied filters of a list relate to those of the list
      without its last filter. */
  lemma SuppliedSnoc(filters: seq<Filter>)
    requires |filters| > 0
    ensures var init := filters[..|filters| - 1];
            var last := filters[|filters| - 1];
            && (!Supplied(last) ==> SuppliedFilters(filters) == SuppliedFilters(init))
            && (Supplied(last) ==> SuppliedFilters(filters) == SuppliedFilters(init) + [last])
  {
  }

  lemma {:induction false} BuildWhereNone(filters: seq<Filter>)
    requires |SuppliedFilters(filters)| == 0
    ensures BuildWhere(filters) == Where("", [])
  {
    if |filters| > 0 {
      var init := filters[..|filters| - 1];
      var last := filters[|filters| - 1];
      assert last in filters;
      assert !Supplied(last);
      SuppliedSnoc(filters);
      BuildWhereNone(init);
    }
  }

  /** A supplied last filter adds one clause numbered after the earlier ones
      and one pattern. */
  lemma ClausesSnoc(filters: seq<Filter>)
    requires |filters| > 0 && Supplied(filters[|filters| - 1])
    ensures var init := filters[..|filters| - 1];
            var last := filters[|filters| - 1];
            && Clauses(filters) == Clauses(init) + [(last.column, |SuppliedFilters(init)| + 1)]
            && Patterns(filters) == Patterns(init) + [Str("%" + last.text + "%")]
  {
    SuppliedSnoc(filters);
  }

  /** The block of the first supplied filter writes one item and nothing
      before it. */
  lemma AddFilterFirst(f: Filter)
    requires Supplied(f)
    ensures AddFilter(Where("", []), f)
            == Where(SqlText.Item(f.column, 1, SqlText.Conjunction), [Str("%" + f.text + "%")])
  {
    assert SqlText.Item(f.column, 1, SqlText.Conjunction)
        == "" + "" + f.column + " ILIKE $" + Decimal.NatToString(1);
  }

  /** The block of a later supplied filter writes " AND " and one item. */
  lemma AddFilterNext(w: Where, f: Filter)
    requires Supplied(f) && |w.values| > 0
    ensures AddFilter(w, f)
            == Where(w.clause + " AND " + SqlText.Item(f.column, |w.values| + 1, SqlText.Conjunction),
                     w.values + [Str("%" + f.text + "%")])
  {
    var k := Decimal.NatToString(|w.values| + 1);
    assert SqlText.Item(f.column, |w.values| + 1, SqlText.Conjunction) == "" + f.column + " ILIKE $" + k;
    assert w.clause + " AND " + f.column + " ILIKE $" + k
        == w.clause + " AND " + ("" + f.column + " ILIKE $" + k);
  }

  /** The first supplied clause is the item itself. */
  lemma BuildWhereFirst(filters: seq<Filter>)
    requires |filters| > 0 && Supplied(filters[|filters| - 1])
    requires |SuppliedFilters(filters[..|filters| - 1])| == 0
    ensures BuildWhere(filters) == Where(SqlText.Render(Clauses(filters), SqlText.Conjunction), Patterns(filters))
  {
    var init := filters[..|filters| - 1];
    var last := filters[|filters| - 1];
    BuildWhereNone(init);
    AddFilterFirst(last);
    ClausesSnoc(filters);
    SqlText.RenderSingle(last.column, 1, SqlText.Conjunction);
    assert Clauses(filters) == [(last.column, 1)];
  }

  /** A later supplied clause is appended after " AND ". */
  lemma BuildWhereNext(filters: seq<Filter>)
    requires |filters| > 0 && Supplied(filters[|filters| - 1])
    requires var init := filters[..|filters| - 1];
             && |SuppliedFilters(init)| > 0
             && BuildWhere(init) == Where(SqlText.Render(Clauses(init), SqlText.Conjunction), Patterns(init))
    ensures BuildWhere(filters) == Where(SqlText.Render(Clauses(filters), SqlText.Conjunction), Patterns(filters))
  {
    var init := filters[..|filters| - 1];
    var last := filters[|filters| - 1];
    var n := |SuppliedFilters(init)|;
    ClausesSnoc(filters);
    AddFilterNext(BuildWhere(init), last);
    SqlText.RenderSnoc(Clauses(init), last.column, n + 1, SqlText.Conjunction);
  }

  /** The incremental building gives the clauses joined by " AND ", numbered
      from 1 in order, and the matching patterns. */
  lemma {:induction false} BuildWhereRenders(filters: seq<Filter>)
    requires |SuppliedFilters(filters)| > 0
    ensures BuildWhere(filters) == Where(SqlText.Render(Clauses(filters), SqlText.Conjunction), Patterns(filters))
  {
    var init := filters[..|filters| - 1];
    var last := filters[|filters| - 1];
    SuppliedSnoc(filters);
    if !Supplied(last) {
      BuildWhereRenders(init);
    } else if |SuppliedFilters(init)| == 0 {
      BuildWhereFirst(filters);
    } else {
      BuildWhereRenders(init);
      BuildWhereNext(filters);
    }
  }

  /** A row as the database sees it: column name to stored value. */
  type Row = map<string, Value>

  /** A clause can be evaluated: its column exists and its placeholder is
      bound. */
  predicate Defined(row: Row, c: (string, nat), values: seq<Value>) {
    c.0 in row && Sql.Bind(c.1, values).Some?
  }

  /** `col ILIKE $k` is true of the row: both the column and the pattern are
      non-NULL and the pattern matches (NULL ILIKE anything is not true). */
  predicate Holds(row: Row, c: (string, nat), values: seq<Value>) {
    && Defined(row, c, values)
    && TextOf(row[c.0]).Some?
    && TextOf(Sql.Bind(c.1, values).value).Some?
    && ILike.Like(TextOf(row[c.0]).value, TextOf(Sql.Bind(c.1, values).value).value)
  }

  /** The value of a WHERE text with its bind values on one row; `None` when
      the database would reject the query. */
  function EvalWhere(clause: string, values: seq<Value>, row: Row): Option<bool> {
    match SqlText.Parse(clause, SqlText.Conjunction)
    case None => None
    case Some(cs) =>
      if forall i :: 0 <= i < |cs| ==> Defined(row, cs[i], values)
      then Some(forall i :: 0 <= i < |cs| ==> Holds(row, cs[i], values))
      else None
  }

  /** The filter occurs in the row's column, ignoring case. */
  predicate ColumnContains(row: Row, f: Filter) {
    f.column in row && TextOf(row[f.column]).Some? && ILike.ContainsCI(TextOf(row[f.column]).value, f.text)
  }

  /** What a search means for a row: every supplied filter occurs in its
      column. */
  predicate MatchesAll(row: Row, filters: seq<Filter>) {
    forall f :: f in filters && Supplied(f) ==> ColumnContains(row, f)
  }

  /** Every filter names a column of the row that the clause layout can
      delimit (no space in the name). */
  predicate Evaluable(row: Row, filters: seq<Filter>) {
    forall f :: f in filters ==> SqlText.ColumnFits(f.column, SqlText.Conjunction) && f.column in row
  }

  /** No filter text holds an ILIKE wildcard. */
  predicate LiteralTexts(filters: seq<Filter>) {
    forall f :: f in filters ==> ILike.Literal(f.text)
  }

  /** Evaluating a rendered clause list: it reads back as itself, so the
      WHERE text is true exactly when every clause holds. */
  lemma EvalRendered(cs: seq<(string, nat)>, values: seq<Value>, row: Row)
    requires |cs| > 0
    requires forall i :: 0 <= i < |cs| ==> SqlText.ColumnFits(cs[i].0, SqlText.Conjunction)
    requires forall i :: 0 <= i < |cs| ==> Defined(row, cs[i], values)
    ensures EvalWhere(SqlText.Render(cs, SqlText.Conjunction), values, row)
            == Some(forall i :: 0 <= i < |cs| ==> Holds(row, cs[i], values))
  {
    SqlText.LayoutsWellFormed();
    SqlText.ParseRender(cs, SqlText.Conjunction);
    EvalParsed(SqlText.Render(cs, SqlText.Conjunction), cs, values, row);
  }

  /** A WHERE text that reads as a list of defined clauses is true exactly
      when every clause holds. */
  lemma EvalParsed(clause: string, cs: seq<(string, nat)>, values: seq<Value>, row: Row)
    requires SqlText.Parse(clause, SqlText.Conjunction) == Some(cs)
    requires forall i :: 0 <= i < |cs| ==> Defined(row, cs[i], values)
    ensures EvalWhere(clause, values, row) == Some(forall i :: 0 <= i < |cs| ==> Holds(row, cs[i], values))
  {
  }

  /** The i-th clause names an existing column and a bound placeholder. */
  lemma ClauseDefined(filters: seq<Filter>, row: Row, i: nat)
    requires Evaluable(row, filters)
    requires i < |SuppliedFilters(filters)|
    ensures Defined(row, Clauses(filters)[i], Patterns(filters))
  {
    var f := SuppliedFilters(filters)[i];
    assert f in filters;
    assert Sql.Bind(Clauses(filters)[i].1, Patterns(filters)) == Some(Str("%" + f.text + "%"));
  }

  /** The i-th clause holds exactly when the i-th supplied filter occurs in
      its column. */
  lemma ClauseMeaning(filters: seq<Filter>, row: Row, i: nat)
    requires Evaluable(row, filters) && LiteralTexts(filters)
    requires i < |SuppliedFilters(filters)|
    ensures Defined(row, Clauses(filters)[i], Patterns(filters))
    ensures Holds(row, Clauses(filters)[i], Patterns(filters)) <==> ColumnContains(row, SuppliedFilters(filters)[i])
  {
    var f := SuppliedFilters(filters)[i];
    assert f in filters;
    assert Sql.Bind(Clauses(filters)[i].1, Patterns(filters)) == Some(Str("%" + f.text + "%"));
    if TextOf(row[f.column]).Some? {
      ILike.SearchPatternMeaning(TextOf(row[f.column]).value, f.text);
    }
  }

  /** The WHERE text and bind values built from the filters select exactly
      the rows in which every supplied filter occurs in its column, ignoring
      case. */
  lemma WhereMeaning(filters: seq<Filter>, row: Row)
    requires AnySupplied(filters) && Evaluable(row, filters) && LiteralTexts(filters)
    ensures EvalWhere(BuildWhere(filters).clause, BuildWhere(filters).values, row) == Some(MatchesAll(row, filters))
  {
    var cs := Clauses(filters);
    var ps := Patterns(filters);
    var f0 :| f0 in filters && Supplied(f0);
    assert f0 in SuppliedFilters(filters);
    BuildWhereRenders(filters);
    assert BuildWhere(filters) == Where(SqlText.Render(cs, SqlText.Conjunction), ps);
    EveryClauseMeaning(filters, row);
    EvalRendered(cs, ps, row);
    AllClausesIffAllFilters(filters, row);
  }

  /** ClauseMeaning for every clause at once: the clauses can be evaluated,
      and they all hold exactly when every supplied filter occurs. */
  lemma EveryClauseMeaning(filters: seq<Filter>, row: Row)
    requires Evaluable(row, filters) && LiteralTexts(filters)
    ensures var cs := Clauses(filters);
            forall i :: 0 <= i < |cs| ==> SqlText.ColumnFits(cs[i].0, SqlText.Conjunction)
    ensures var cs := Clauses(filters);
            forall i :: 0 <= i < |cs| ==> Defined(row, cs[i], Patterns(filters))
    ensures var cs := Clauses(filters);
            var sup := SuppliedFilters(filters);
            (forall i :: 0 <= i < |cs| ==> Holds(row, cs[i], Patterns(filters)))
            <==> (forall i :: 0 <= i < |sup| ==> ColumnContains(row, sup[i]))
  {
    var sup := SuppliedFilters(filters);
    var cs := Clauses(filters);
    forall i | 0 <= i < |cs|
      ensures SqlText.ColumnFits(cs[i].0, SqlText.Conjunction)
      ensures Defined(row, cs[i], Patterns(filters))
      ensures Holds(row, cs[i], Patterns(filters)) <==> ColumnContains(row, sup[i])
    {
      assert sup[i] in filters;
      ClauseMeaning(filters, row, i);
    }
  }

  /** Whatever the filter texts, the database can evaluate the WHERE text on
      every row: it names existing columns and binds every placeholder. */
  lemma WhereDefined(filters: seq<Filter>, row: Row)
    requires AnySupplied(filters) && Evaluable(row, filters)
    ensures EvalWhere(BuildWhere(filters).clause, BuildWhere(filters).values, row).Some?
  {
    var sup := SuppliedFilters(filters);
    var cs := Clauses(filters);
    var ps := Patterns(filters);
    var f0 :| f0 in filters && Supplied(f0);
    assert f0 in sup;
    BuildWhereRenders(filters);
    forall i | 0 <= i < |cs|
      ensures SqlText.ColumnFits(cs[i].0, SqlText.Conjunction)
      ensures Defined(row, cs[i], ps)
    {
      assert sup[i] in filters;
      ClauseDefined(filters, row, i);
    }
    EvalRendered(cs, ps, row);
  }

  /** Every supplied filter occurs in its column exactly when every one of
      the supplied list does. */
  lemma AllClausesIffAllFilters(filters: seq<Filter>, row: Row)
    ensures var sup := SuppliedFilters(filters);
            MatchesAll(row, filters) <==> forall i :: 0 <= i < |sup| ==> ColumnContains(row, sup[i])
  {
    var sup := SuppliedFilters(filters);
    var all := forall i :: 0 <= i < |sup| ==> ColumnContains(row, sup[i]);
    if all {
      forall f | f in filters && Supplied(f) ensures ColumnContains(row, f) {
        assert f in sup;
        var i :| 0 <= i < |sup| && sup[i] == f;
      }
      assert MatchesAll(row, filters);
    } else {
      var i :| 0 <= i < |sup| && !ColumnContains(row, sup[i]);
      assert sup[i] in sup;
      assert !MatchesAll(row, filters);
    }
  }
}
