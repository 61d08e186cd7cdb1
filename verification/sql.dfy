/** The partial-update builder of helpers/sql.js, and the meaning the
    database gives to what it builds: the SET list is read back into
    (column, placeholder) pairs and each placeholder `$k` is bound to the
    k-th element of the bind list. */
module Sql {
  import opened Optional
  import opened Values
  import opened Errors
  import Decimal
  import SqlText

  /** `jsToSql`: JavaScript field name to SQL column name, for the fields
      whose column is named differently. */
  type Renames = map<string, string>

  /** What sqlForPartialUpdate returns. */
  datatype PartialUpdate<V> = PartialUpdate(setCols: string, values: seq<V>)

  /** `jsToSql[key] || key`: the renamed column when the entry is present and
      non-empty, else the field name itself. */
  function ColumnFor(key: string, jsToSql: Renames): string {
    if key in jsToSql && jsToSql[key] != "" then jsToSql[key] else key
  }

  /** The (column, placeholder number) pairs of the SET list for `data`: the
      i-th field's column with `$(i+1)`. */
  function Numbered<V>(data: seq<(string, V)>, jsToSql: Renames): (xs: seq<(string, nat)>)
    ensures |xs| == |data|
    ensures forall i :: 0 <= i < |data| ==> xs[i] == (ColumnFor(data[i].0, jsToSql), i + 1)
  {
    seq(|data|, i requires 0 <= i < |data| => (ColumnFor(data[i].0, jsToSql), i + 1))
  }

  /** Every column name is free of the double quote that delimits it. */
  predicate QuoteFree<V>(data: seq<(string, V)>, jsToSql: Renames) {
    forall i :: 0 <= i < |data| ==> SqlText.ColumnFits(ColumnFor(data[i].0, jsToSql), SqlText.Assignments)
  }

  /** sqlForPartialUpdate(dataToUpdate, jsToSql). */
  function SqlForPartialUpdate<V>(data: seq<(string, V)>, jsToSql: Renames): (r: Result<PartialUpdate<V>>)
    ensures r.Err? <==> |data| == 0
    ensures r.Err? ==> r.error == BadRequestError(Some("No data"))
    ensures r.Ok? ==> |r.value.values| == |data|
    ensures r.Ok? ==> forall i :: 0 <= i < |data| ==> r.value.values[i] == data[i].1
  {
    var keys := Keys(data);
    if |keys| == 0 then Err(BadRequestError(Some("No data")))
    else
      var cols := seq(|keys|, i requires 0 <= i < |keys| =>
                        SqlText.Item(ColumnFor(keys[i], jsToSql), i + 1, SqlText.Assignments));
      Ok(PartialUpdate(SqlText.Join(cols, ", "), seq(|data|, i requires 0 <= i < |data| => data[i].1)))
  }

  /** The SET list reads back as the i-th field's column assigned from
      `$(i+1)`, for every field, in key order. */
  lemma SetColsMeaning<V>(data: seq<(string, V)>, jsToSql: Renames)
    requires |data| > 0 && QuoteFree(data, jsToSql)
    ensures SqlText.Parse(SqlForPartialUpdate(data, jsToSql).value.setCols, SqlText.Assignments)
            == Some(Numbered(data, jsToSql))
  {
    var xs := Numbered(data, jsToSql);
    var keys := Keys(data);
    var cols := seq(|keys|, i requires 0 <= i < |keys| =>
                      SqlText.Item(ColumnFor(keys[i], jsToSql), i + 1, SqlText.Assignments));
    assert SqlText.Items(xs, SqlText.Assignments) == cols;
    assert SqlForPartialUpdate(data, jsToSql).value.setCols == SqlText.Render(xs, SqlText.Assignments);
    SqlText.LayoutsWellFormed();
    SqlText.ParseRender(xs, SqlText.Assignments);
  }

  /** With an empty rename table the assigned columns are exactly the keys. */
  lemma EmptyRenamesKeepKeys<V>(data: seq<(string, V)>)
    requires |data| > 0 && QuoteFree(data, map[])
    ensures forall i :: 0 <= i < |data| ==> Numbered(data, map[])[i] == (data[i].0, i + 1)
    ensures SqlText.Parse(SqlForPartialUpdate(data, map[]).value.setCols, SqlText.Assignments)
            == Some(Numbered(data, map[]))
  {
    SetColsMeaning(data, map[]);
  }

  /** The value bound to placeholder `$k` (numbered from 1). */
  function Bind<V>(k: nat, binds: seq<V>): Option<V> {
    if 1 <= k <= |binds| then Some(binds[k - 1]) else None
  }

  /** Binds every placeholder of a parsed SET list. */
  function BindAll<V>(xs: seq<(string, nat)>, binds: seq<V>): (r: Option<seq<(string, V)>>)
    ensures r.Some? ==> |r.value| == |xs|
    ensures r.Some? <==> forall i :: 0 <= i < |xs| ==> Bind(xs[i].1, binds).Some?
    ensures r.Some? ==> forall i :: 0 <= i < |xs| ==> Some(r.value[i].1) == Bind(xs[i].1, binds)
    ensures r.Some? ==> forall i :: 0 <= i < |xs| ==> r.value[i].0 == xs[i].0
  {
    if |xs| == 0 then Some([])
    else
      match Bind(xs[0].1, binds)
      case None => None
      case Some(v) =>
        match BindAll(xs[1..], binds)
        case None => None
        case Some(tail) => Some([(xs[0].0, v)] + tail)
  }

  /** The (column, value) assignments the database reads from a SET list and
      its bind list; a malformed list or an unbound placeholder is an error
      the database raises. */
  function Resolve<V>(setCols: string, binds: seq<V>): Result<seq<(string, V)>> {
    match SqlText.Parse(setCols, SqlText.Assignments)
    case None => Err(UnhandledError("syntax error in SET list"))
    case Some(xs) =>
      match BindAll(xs, binds)
      case None => Err(UnhandledError("bind message supplies too few parameters"))
      case Some(assigns) => Ok(assigns)
  }

  /** The placeholder the callers write for the row key: `"$" + (values.length + 1)`. */
  function KeyPlaceholder(n: nat): string {
    "$" + Decimal.NatToString(n + 1)
  }

  /** The value a `$k` placeholder stands for. */
  function BindPlaceholder<V>(p: string, binds: seq<V>): Option<V> {
    if |p| > 1 && p[0] == '$' && Decimal.AllDigits(p[1..])
    then Bind(Decimal.DigitsValue(p[1..]), binds)
    else None
  }

  /** The assignments `data` asks for: each field's column and its value. */
  function Requested<V>(data: seq<(string, V)>, jsToSql: Renames): (assigns: seq<(string, V)>)
    ensures |assigns| == |data|
    ensures forall i :: 0 <= i < |data| ==> assigns[i] == (ColumnFor(data[i].0, jsToSql), data[i].1)
  {
    seq(|data|, i requires 0 <= i < |data| => (ColumnFor(data[i].0, jsToSql), data[i].1))
  }

  /** The key placeholder `$(n+1)` stands for the element after the n
      values. */
  lemma KeyPlaceholderBindsKey<V>(values: seq<V>, key: V)
    ensures BindPlaceholder(KeyPlaceholder(|values|), values + [key]) == Some(key)
  {
    var p := KeyPlaceholder(|values|);
    assert p[1..] == Decimal.NatToString(|values| + 1);
    Decimal.DigitsValueOfNatToString(|values| + 1);
  }

  /** Binding the numbered SET list against `[...values, key]` picks each
      field's own value. */
  lemma BindNumbered<V>(data: seq<(string, V)>, jsToSql: Renames, key: V)
    ensures var binds := seq(|data|, i requires 0 <= i < |data| => data[i].1) + [key];
            BindAll(Numbered(data, jsToSql), binds) == Some(Requested(data, jsToSql))
  {
    var values := seq(|data|, i requires 0 <= i < |data| => data[i].1);
    var binds := values + [key];
    var xs := Numbered(data, jsToSql);
    forall i | 0 <= i < |xs| ensures Bind(xs[i].1, binds) == Some(data[i].1) {
      assert xs[i].1 == i + 1 && binds[i] == values[i];
    }
    var r := BindAll(xs, binds);
    var want := Requested(data, jsToSql);
    assert r.Some?;
    forall i | 0 <= i < |xs| ensures r.value[i] == want[i] {
      assert Some(r.value[i].1) == Bind(xs[i].1, binds);
    }
    assert r.value == want;
  }

  /** The callers' bind list `[...values, key]` lines up with the text: the
      SET list resolves to exactly the requested assignments, the key
      placeholder `$(n+1)` resolves to the key, and no assignment uses the
      key's placeholder number. */
  lemma BindAlignment<V>(data: seq<(string, V)>, jsToSql: Renames, key: V)
    requires |data| > 0 && QuoteFree(data, jsToSql)
    ensures var pu := SqlForPartialUpdate(data, jsToSql).value;
            && Resolve(pu.setCols, pu.values + [key]) == Ok(Requested(data, jsToSql))
            && BindPlaceholder(KeyPlaceholder(|pu.values|), pu.values + [key]) == Some(key)
            && forall i :: 0 <= i < |data| ==> Numbered(data, jsToSql)[i].1 != |pu.values| + 1
  {
    var pu := SqlForPartialUpdate(data, jsToSql).value;
    assert pu.values == seq(|data|, i requires 0 <= i < |data| => data[i].1);
    SetColsMeaning(data, jsToSql);
    BindNumbered(data, jsToSql, key);
    KeyPlaceholderBindsKey(pu.values, key);
  }

  /** The columns a list of assignments writes. */
  function AssignedColumns<V>(assigns: seq<(string, V)>): set<string> {
    set i | 0 <= i < |assigns| :: assigns[i].0
  }

  /** The checks the database makes when it plans the UPDATE, before it looks
      at any row: every column may be written, and none is written twice. */
  function CheckColumns<V>(assigns: seq<(string, V)>, writable: set<string>): (r: Result<()>)
    ensures r.Ok? <==> AssignedColumns(assigns) <= writable && DistinctKeys(assigns)
    ensures r.Err? ==> r.error.kind == Unhandled
  {
    if |assigns| == 0 then Ok(())
    else
      var c := assigns[0].0;
      assert AssignedColumns(assigns) == {c} + AssignedColumns(assigns[1..]) by {
        forall x | x in AssignedColumns(assigns) ensures x in {c} + AssignedColumns(assigns[1..]) {
          var i :| 0 <= i < |assigns| && assigns[i].0 == x;
          if i > 0 { assert assigns[1..][i - 1].0 == x; }
        }
        forall x | x in AssignedColumns(assigns[1..]) ensures x in AssignedColumns(assigns) {
          var i :| 0 <= i < |assigns[1..]| && assigns[1..][i].0 == x;
          assert assigns[i + 1].0 == x;
        }
      }
      if c !in writable then Err(UnhandledError("column \"" + c + "\" cannot be updated"))
      else if c in AssignedColumns(assigns[1..]) then
        Err(UnhandledError("multiple assignments to same column \"" + c + "\""))
      else CheckColumns(assigns[1..], writable)
  }

  /** Writes the assignments into a row given as column to value. */
  function Assign<V>(row: map<string, V>, assigns: seq<(string, V)>): (r: map<string, V>)
    decreases |assigns|
    ensures r.Keys == row.Keys + AssignedColumns(assigns)
    ensures forall c :: c in row && c !in AssignedColumns(assigns) ==> r[c] == row[c]
    ensures DistinctKeys(assigns) ==> forall i :: 0 <= i < |assigns| ==> r[assigns[i].0] == assigns[i].1
  {
    if |assigns| == 0 then row
    else
      assert AssignedColumns(assigns) == {assigns[0].0} + AssignedColumns(assigns[1..]) by {
        forall x | x in AssignedColumns(assigns) ensures x in {assigns[0].0} + AssignedColumns(assigns[1..]) {
          var i :| 0 <= i < |assigns| && assigns[i].0 == x;
          if i > 0 { assert assigns[1..][i - 1].0 == x; }
        }
        forall x | x in AssignedColumns(assigns[1..]) ensures x in AssignedColumns(assigns) {
          var i :| 0 <= i < |assigns[1..]| && assigns[1..][i].0 == x;
          assert assigns[i + 1].0 == x;
        }
      }
      Assign(row[assigns[0].0 := assigns[0].1], assigns[1..])
  }

  /** After the assignments, a column holds the value assigned to it, or its
      old value when none is. */
  lemma AssignMeaning<V>(row: map<string, V>, assigns: seq<(string, V)>, c: string)
    requires DistinctKeys(assigns) && c in row
    ensures c in Assign(row, assigns)
    ensures Assign(row, assigns)[c] == Get(assigns, c).GetOr(row[c])
  {
    if Get(assigns, c).Some? {
      var i :| 0 <= i < |assigns| && assigns[i].0 == c;
    }
  }

  /** An UPDATE the database has planned: its (column, value) assignments
      and the value bound to the key placeholder of its WHERE clause. */
  datatype Statement<V> = Statement(assigns: seq<(string, V)>, key: V)

  /** How the database prepares `UPDATE t SET <setCols> WHERE <key> = $(n+1)`
      with binds `[...values, key]`: it reads the SET list, binds the
      placeholders, and refuses a column that may not be written or is
      written twice. */
  function Plan<V>(pu: PartialUpdate<V>, key: V, writable: set<string>): (r: Result<Statement<V>>)
    ensures r.Ok? ==> r.value.key == key
    ensures r.Ok? ==> AssignedColumns(r.value.assigns) <= writable && DistinctKeys(r.value.assigns)
    ensures r.Err? ==> r.error.kind == Unhandled
  {
    var binds := pu.values + [key];
    var assigns :- Resolve(pu.setCols, binds);
    KeyPlaceholderBindsKey(pu.values, key);
    match BindPlaceholder(KeyPlaceholder(|pu.values|), binds)
    case None => Err(UnhandledError("there is no parameter for the key placeholder"))
    case Some(k) =>
      var checked :- CheckColumns(assigns, writable);
      Ok(Statement(assigns, k))
  }

  /** For field names without a double quote and distinct columns, the
      planned statement assigns exactly the requested (column, value) pairs
      and selects by the key; otherwise some column may not be written and
      the database refuses the statement. */
  lemma PlanMeaning<V>(data: seq<(string, V)>, jsToSql: Renames, key: V, writable: set<string>)
    requires |data| > 0 && QuoteFree(data, jsToSql)
    ensures var pu := SqlForPartialUpdate(data, jsToSql).value;
            var want := Requested(data, jsToSql);
            && (AssignedColumns(want) <= writable && DistinctKeys(want) ==> Plan(pu, key, writable) == Ok(Statement(want, key)))
            && (!(AssignedColumns(want) <= writable && DistinctKeys(want)) ==> Plan(pu, key, writable).Err?)
  {
    BindAlignment(data, jsToSql, key);
  }

  /** Without renames the requested assignments are the fields themselves. */
  lemma NoRenames<V>(data: seq<(string, V)>)
    ensures Requested(data, map[]) == data
  {
  }
}
