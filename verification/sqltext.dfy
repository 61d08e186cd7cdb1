/** The two kinds of numbered SQL fragment the data-access layer writes as
    text: the SET list of a partial update (`"col"=$1, "col2"=$2`) and the
    WHERE clause of a search (`name ILIKE $1 AND type ILIKE $2`). Both are
    lists of items `pre + column + mid + number` joined by a separator; this
    module renders such lists and reads them back, which is how the model
    gives the generated text its meaning. */
module SqlText {
  import opened Optional
  import Decimal

  /** `parts.join(sep)`. */
  function Join(parts: seq<string>, sep: string): string {
    if |parts| == 0 then ""
    else if |parts| == 1 then parts[0]
    else parts[0] + sep + Join(parts[1..], sep)
  }

  /** Joining one more part appends the separator and the part. */
  lemma {:induction false} JoinSnoc(parts: seq<string>, p: string, sep: string)
    requires |parts| > 0
    ensures Join(parts + [p], sep) == Join(parts, sep) + sep + p
  {
    if |parts| == 1 {
      assert (parts + [p])[1..] == [p];
    } else {
      assert (parts + [p])[1..] == parts[1..] + [p];
      JoinSnoc(parts[1..], p, sep);
    }
  }

  /** The shape of one item: `pre`, a column name free of `stop`, `mid`
      (which begins with `stop`, so it ends the name), then the placeholder
      number; items are separated by `sep`. */
  datatype Layout = Layout(pre: string, stop: char, mid: string, sep: string)

  predicate WellFormed(l: Layout) {
    && |l.mid| > 0 && l.mid[0] == l.stop
    && |l.sep| > 0 && !Decimal.IsDigit(l.sep[0])
  }

  /** `"col"=$k` items joined by ", " (helpers/sql.js). */
  const Assignments: Layout := Layout("\"", '"', "\"=$", ", ")

  /** `col ILIKE $k` items joined by " AND " (the findByCriteria methods). */
  const Conjunction: Layout := Layout("", ' ', " ILIKE $", " AND ")

  lemma LayoutsWellFormed()
    ensures WellFormed(Assignments) && WellFormed(Conjunction)
  {
  }

  /** A column name that the layout can delimit. */
  predicate ColumnFits(col: string, l: Layout) {
    forall i :: 0 <= i < |col| ==> col[i] != l.stop
  }

  /** One rendered item. */
  function Item(col: string, k: nat, l: Layout): string {
    l.pre + col + l.mid + Decimal.NatToString(k)
  }

  /** The rendered items of a list of (column, placeholder number) pairs. */
  function Items(xs: seq<(string, nat)>, l: Layout): (parts: seq<string>)
    ensures |parts| == |xs|
    ensures forall i :: 0 <= i < |xs| ==> parts[i] == Item(xs[i].0, xs[i].1, l)
  {
    seq(|xs|, i requires 0 <= i < |xs| => Item(xs[i].0, xs[i].1, l))
  }

  function Render(xs: seq<(string, nat)>, l: Layout): string {
    Join(Items(xs, l), l.sep)
  }

  /** A one-item list renders as the item. */
  lemma RenderSingle(col: string, k: nat, l: Layout)
    ensures Render([(col, k)], l) == Item(col, k, l)
  {
    assert Items([(col, k)], l) == [Item(col, k, l)];
  }

  /** One more item renders after the separator. */
  lemma RenderSnoc(xs: seq<(string, nat)>, col: string, k: nat, l: Layout)
    requires |xs| > 0
    ensures Render(xs + [(col, k)], l) == Render(xs, l) + l.sep + Item(col, k, l)
  {
    assert Items(xs + [(col, k)], l) == Items(xs, l) + [Item(col, k, l)];
    JoinSnoc(Items(xs, l), Item(col, k, l), l.sep);
  }

  /** `s` without its prefix `p`, when `p` is a prefix. */
  function StripPrefix(s: string, p: string): (r: Option<string>)
    ensures r.Some? <==> p <= s
    ensures r.Some? ==> s == p + r.value
  {
    if p <= s then Some(s[|p|..]) else None
  }

  /** The longest prefix of `s` without the character `stop`. */
  function TakeUntil(s: string, stop: char): (c: string)
    ensures c <= s
    ensures forall i :: 0 <= i < |c| ==> c[i] != stop
    ensures |c| < |s| ==> s[|c|] == stop
  {
    if |s| == 0 || s[0] == stop then [] else [s[0]] + TakeUntil(s[1..], stop)
  }

  /** Reads one item from the front of `s`: its column name and number,
      and the text after it. */
  function ParseOne(s: string, l: Layout): (r: Option<((string, nat), string)>)
    ensures r.Some? ==> |r.value.1| < |s|
  {
    match StripPrefix(s, l.pre)
    case None => None
    case Some(s1) => ParseNamed(s1, l)
  }

  /** Reads a column name up to `mid`, then the number after `mid`. */
  function ParseNamed(s: string, l: Layout): (r: Option<((string, nat), string)>)
    ensures r.Some? ==> |r.value.1| < |s|
  {
    var col := TakeUntil(s, l.stop);
    match StripPrefix(s[|col|..], l.mid)
    case None => None
    case Some(s2) => ParseNumber(col, s2)
  }

  /** Reads the placeholder number of column `col` from the front of `s`. */
  function ParseNumber(col: string, s: string): (r: Option<((string, nat), string)>)
    ensures r.Some? ==> |r.value.1| < |s|
  {
    var ds := Decimal.DigitRun(s);
    if |ds| == 0 then None else Some(((col, Decimal.DigitsValue(ds)), s[|ds|..]))
  }

  /** Reads a list of items laid out by `l`; `None` when the text is not
      such a list. */
  function Parse(s: string, l: Layout): Option<seq<(string, nat)>>
    decreases |s|
  {
    match ParseOne(s, l)
    case None => None
    case Some((item, rest)) =>
      if |rest| == 0 then Some([item])
      else
        match StripPrefix(rest, l.sep)
        case None => None
        case Some(more) =>
          match Parse(more, l)
          case None => None
          case Some(tail) => Some([item] + tail)
  }

  lemma {:induction false} TakeUntilDelimited(col: string, tail: string, stop: char)
    requires forall i :: 0 <= i < |col| ==> col[i] != stop
    requires |tail| > 0 && tail[0] == stop
    ensures TakeUntil(col + tail, stop) == col
  {
    if |col| == 0 {
      assert col + tail == tail;
    } else {
      assert (col + tail)[1..] == col[1..] + tail;
      TakeUntilDelimited(col[1..], tail, stop);
    }
  }

  lemma StripPrefixOfConcat(p: string, t: string)
    ensures StripPrefix(p + t, p) == Some(t)
  {
    assert (p + t)[..|p|] == p;
    assert (p + t)[|p|..] == t;
  }

  /** Reading one rendered item gives back its column name and number,
      and leaves exactly the text that followed it. */
  lemma ParseOneItem(col: string, k: nat, rest: string, l: Layout)
    requires WellFormed(l) && ColumnFits(col, l)
    requires |rest| == 0 || !Decimal.IsDigit(rest[0])
    ensures ParseOne(Item(col, k, l) + rest, l) == Some(((col, k), rest))
  {
    var d := Decimal.NatToString(k);
    var s2 := d + rest;
    var tail := l.mid + s2;
    var s1 := col + tail;
    var s := Item(col, k, l) + rest;
    assert s == l.pre + s1;
    StripPrefixOfConcat(l.pre, s1);
    TakeUntilDelimited(col, tail, l.stop);
    assert s1[|col|..] == tail;
    StripPrefixOfConcat(l.mid, s2);
    Decimal.DigitRunOfDigits(d, rest);
    Decimal.DigitsValueOfNatToString(k);
    assert s2[|d|..] == rest;
    assert ParseNumber(col, s2) == Some(((col, k), rest));
    assert ParseNamed(s1, l) == Some(((col, k), rest));
  }

  /** Rendering then reading gives back the same list: the column names and
      placeholder numbers in the text are exactly the ones rendered. */
  lemma RenderCons(xs: seq<(string, nat)>, l: Layout)
    requires |xs| > 1
    ensures Render(xs, l) == Item(xs[0].0, xs[0].1, l) + (l.sep + Render(xs[1..], l))
  {
    var parts := Items(xs, l);
    assert parts[1..] == Items(xs[1..], l);
  }

  /** How `Parse` continues after one item followed by a separator. */
  lemma ParseCons(s: string, item: (string, nat), more: string, l: Layout)
    requires ParseOne(s, l) == Some((item, l.sep + more))
    requires |l.sep| > 0
    ensures Parse(s, l) == match Parse(more, l)
                           case None => None
                           case Some(tail) => Some([item] + tail)
  {
    StripPrefixOfConcat(l.sep, more);
  }

  lemma ParseRenderSingle(col: string, k: nat, l: Layout)
    requires WellFormed(l) && ColumnFits(col, l)
    ensures Parse(Render([(col, k)], l), l) == Some([(col, k)])
  {
    assert Render([(col, k)], l) == Item(col, k, l) + "";
    ParseOneItem(col, k, "", l);
  }

  /** Reading an item, a separator and a readable text gives the item
      followed by what that text reads as. */
  lemma ParseItemThen(col: string, k: nat, more: string, tail: seq<(string, nat)>, l: Layout)
    requires WellFormed(l) && ColumnFits(col, l)
    requires Parse(more, l) == Some(tail)
    ensures Parse(Item(col, k, l) + (l.sep + more), l) == Some([(col, k)] + tail)
  {
    var rest := l.sep + more;
    assert rest[0] == l.sep[0];
    ParseOneItem(col, k, rest, l);
    ParseCons(Item(col, k, l) + rest, (col, k), more, l);
  }

  /** One induction step: reading a longer list reads its first item, then
      the rest. */
  lemma ParseRenderCons(xs: seq<(string, nat)>, l: Layout)
    requires WellFormed(l) && |xs| > 1 && ColumnFits(xs[0].0, l)
    requires Parse(Render(xs[1..], l), l) == Some(xs[1..])
    ensures Parse(Render(xs, l), l) == Some(xs)
  {
    RenderCons(xs, l);
    ParseItemThen(xs[0].0, xs[0].1, Render(xs[1..], l), xs[1..], l);
    assert [xs[0]] + xs[1..] == xs;
  }

  lemma {:induction false} ParseRender(xs: seq<(string, nat)>, l: Layout)
    requires WellFormed(l) && |xs| > 0
    requires forall i :: 0 <= i < |xs| ==> ColumnFits(xs[i].0, l)
    ensures Parse(Render(xs, l), l) == Some(xs)
  {
    if |xs| == 1 {
      ParseRenderSingle(xs[0].0, xs[0].1, l);
      assert [xs[0]] == xs;
    } else {
      ParseRender(xs[1..], l);
      ParseRenderCons(xs, l);
    }
  }
}
