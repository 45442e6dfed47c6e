/**
 * The pure derivations the data table renders from: alignment classes, cell values,
 * row ids, the column count, the displayed page count, and which body rows appear.
 */
module TableView {
  import opened Wrappers
  import opened Decimal
  import opened Pagination
  import opened Filter

  datatype Align = Left | Center | Right

  /** A cell value as the table sees it; fractional numbers and objects are not modelled. */
  datatype Value = Undefined | Null | Bool(b: bool) | Num(n: int) | Str(s: string)

  /** A row: field name to value. */
  type Row = map<string, Value>

  /** `row[key]`: a missing field reads as `undefined`. */
  function Field(row: Row, key: string): Value {
    if key in row then row[key] else Undefined
  }

  /**
   * A column descriptor; `render` turns a value and its row into a node of type `N`.
   * `heading` holds the column's `label` (`label` is a keyword in Dafny).
   */
  datatype Column<N> = Column(
    key: string,
    heading: string,
    align: Option<Align>,
    width: Option<string>,
    render: Option<(Value, Row) -> N>)

  /** The `expandable` prop, reduced to the parts the table itself reads. */
  datatype Expandable = Expandable(condition: Option<Row -> bool>, cacheKey: Option<Row -> string>)

  /** The props the derivations read. */
  datatype Config<N> = Config(
    columns: seq<Column<N>>,
    expandable: Option<Expandable>,
    hasActions: bool,
    defaultAlign: Option<Align>,
    emptyMessage: Option<string>,
    loadingRows: Option<nat>)

  const DefaultEmptyMessage := "No data available"
  const DefaultLoadingRows: nat := 5

  /** The alignment a column ends up with: its own, else the table default, else left. */
  function EffectiveAlign(align: Option<Align>, defaultAlign: Option<Align>): Align {
    align.GetOr(defaultAlign.GetOr(Left))
  }

  /** `getAlignClass`. */
  function AlignClass(align: Option<Align>, defaultAlign: Option<Align>): (c: string)
    ensures c == "text-left" || c == "text-center" || c == "text-right"
    ensures c == "text-center" <==> EffectiveAlign(align, defaultAlign) == Center
    ensures c == "text-right" <==> EffectiveAlign(align, defaultAlign) == Right
    ensures c == "text-left" <==> EffectiveAlign(align, defaultAlign) == Left
  {
    match EffectiveAlign(align, defaultAlign)
    case Center => "text-center"
    case Right => "text-right"
    case _ => "text-left"
  }

  /** The alignment a class name stands for. */
  function ClassAlign(c: string): Option<Align> {
    if c == "text-center" then Some(Center)
    else if c == "text-right" then Some(Right)
    else if c == "text-left" then Some(Left)
    else None
  }

  /** The class names are distinct, so the class determines the alignment. */
  lemma AlignClassRoundTrip(align: Option<Align>, defaultAlign: Option<Align>)
    ensures ClassAlign(AlignClass(align, defaultAlign)) == Some(EffectiveAlign(align, defaultAlign))
  {
  }

  /** What a body cell shows: the raw value, or what the column's renderer made of it. */
  datatype Cell<N> = Raw(value: Value) | Rendered(node: N)

  /** `getCellValue`. */
  function CellValue<N>(row: Row, column: Column<N>): (c: Cell<N>)
    ensures column.render.None? ==> c == Raw(Field(row, column.key))
    ensures column.render.Some? ==> c == Rendered(column.render.value(Field(row, column.key), row))
  {
    var value := Field(row, column.key);
    match column.render
    case Some(render) => Rendered(render(value, row))
    case None => Raw(value)
  }

  /** Without a renderer a cell depends only on its own field. */
  lemma RawCellReadsOnlyItsField<N>(a: Row, b: Row, column: Column<N>)
    requires column.render.None? && Field(a, column.key) == Field(b, column.key)
    ensures CellValue(a, column) == CellValue(b, column)
  {
  }

  /** `value?.toString()`: no text for `undefined` or `null`. */
  function ValueText(v: Value): (t: Option<string>)
    ensures t.None? <==> v.Undefined? || v.Null?
    ensures v.Num? ==> t == Some(ToDecimal(v.n))
    ensures v.Str? ==> t == Some(v.s)
    ensures v.Bool? ==> t == Some(if v.b then "true" else "false")
  {
    match v
    case Undefined => None
    case Null => None
    case Bool(b) => Some(if b then "true" else "false")
    case Num(n) => Some(ToDecimal(n))
    case Str(s) => Some(s)
  }

  predicate HasCacheKey(e: Option<Expandable>) {
    e.Some? && e.value.cacheKey.Some?
  }

  /** The row's own id text, when it has a non-empty one. */
  function OwnId(row: Row): Option<string> {
    var t := ValueText(Field(row, "id"));
    if t.Some? && t.value != "" then t else None
  }

  /** `getRowId`: the cache key when configured, else the id's text, else the index's text. */
  function RowId(e: Option<Expandable>, row: Row, index: nat): (id: string)
    ensures HasCacheKey(e) ==> id == e.value.cacheKey.value(row)
    ensures !HasCacheKey(e) ==> id != ""
    ensures !HasCacheKey(e) && OwnId(row).Some? ==> id == OwnId(row).value
    ensures !HasCacheKey(e) && OwnId(row).None? ==> id == ToDecimal(index)
    ensures !HasCacheKey(e) && OwnId(row).None? ==> ParseInt(id) == Some(index)
  {
    if HasCacheKey(e) then e.value.cacheKey.value(row)
    else match OwnId(row)
      case Some(t) => t
      case None =>
        ParseIntToDecimal(index);
        ToDecimal(index)
  }

  /** Rows without a usable id get distinct ids from their distinct positions. */
  lemma FallbackRowIdsDistinct(e: Option<Expandable>, a: Row, i: nat, b: Row, j: nat)
    requires !HasCacheKey(e) && OwnId(a).None? && OwnId(b).None? && i != j
    ensures RowId(e, a, i) != RowId(e, b, j)
  {
  }

  /** A numeric id keys its row by its decimal text, which parses back to the id. */
  lemma NumericIdRowId(e: Option<Expandable>, row: Row, index: nat, n: int)
    requires !HasCacheKey(e) && Field(row, "id") == Num(n)
    ensures ParseInt(RowId(e, row, index)) == Some(n)
  {
    ParseIntToDecimal(n);
  }

  /** `totalColumns`: the data columns plus the toggle and actions columns when present. */
  function TotalColumns<N>(cfg: Config<N>): (n: nat)
    ensures |cfg.columns| <= n <= |cfg.columns| + 2
    ensures n == |cfg.columns| <==> cfg.expandable.None? && !cfg.hasActions
    ensures n == |cfg.columns| + 2 <==> cfg.expandable.Some? && cfg.hasActions
  {
    |cfg.columns| + (if cfg.expandable.Some? then 1 else 0) + (if cfg.hasActions then 1 else 0)
  }

  /** A header cell. */
  datatype Header = ToggleHeader | ColumnHeader(key: string, heading: string, alignClass: string) | ActionsHeader

  function ColumnHeaders<N>(columns: seq<Column<N>>, defaultAlign: Option<Align>): (hs: seq<Header>)
    ensures |hs| == |columns|
    ensures forall k :: 0 <= k < |hs| ==> hs[k] == ColumnHeader(columns[k].key, columns[k].heading, AlignClass(columns[k].align, defaultAlign))
  {
    seq(|columns|, k requires 0 <= k < |columns| =>
      ColumnHeader(columns[k].key, columns[k].heading, AlignClass(columns[k].align, defaultAlign)))
  }

  /** The header row: the toggle header, one header per column, the actions header. */
  function HeaderRow<N>(cfg: Config<N>): seq<Header> {
    (if cfg.expandable.Some? then [ToggleHeader] else [])
    + ColumnHeaders(cfg.columns, cfg.defaultAlign)
    + (if cfg.hasActions then [ActionsHeader] else [])
  }

  /** The column count used for spanning rows is the width of the header row. */
  lemma TotalColumnsIsHeaderWidth<N>(cfg: Config<N>)
    ensures TotalColumns(cfg) == |HeaderRow(cfg)|
  {
  }

  /** `meta?.totalPages || 1`: a missing `meta` or a zero page count shows as one page. */
  function DisplayedTotalPages(meta: Option<Meta>): (r: nat)
    ensures r >= 1
    ensures meta.Some? && meta.value.totalPages > 0 ==> r == meta.value.totalPages
    ensures meta.None? || meta.value.totalPages == 0 ==> r == 1
  {
    if meta.Some? && meta.value.totalPages != 0 then meta.value.totalPages else 1
  }

  /** The "Page p of n" label never shows a page with items beyond `n`. */
  lemma DisplayedTotalPagesCoversPage<T>(xs: seq<T>, page: int, limit: int)
    requires limit > 0 && page >= 1
    requires |Paginate(xs, page, limit).items| > 0
    ensures page <= DisplayedTotalPages(Some(Paginate(xs, page, limit).meta))
  {
    PageNonEmptyIffInRange(xs, page, limit);
  }

  /** What the table body shows. */
  datatype BodyView = Skeleton | ErrorRow | EmptyRow | Rows

  /** A fetch error counts only when its message is non-empty: the empty string is falsy. */
  predicate HasError(error: Option<string>) {
    error.Some? && error.value != ""
  }

  /** The body state, in priority order: loading, then error, then empty, then rows. */
  function SelectBodyView(isLoading: bool, error: Option<string>, rowCount: nat): (v: BodyView)
    ensures v.Skeleton? <==> isLoading
    ensures v.ErrorRow? <==> !isLoading && HasError(error)
    ensures v.EmptyRow? <==> !isLoading && !HasError(error) && rowCount == 0
    ensures v.Rows? <==> !isLoading && !HasError(error) && rowCount > 0
  {
    if isLoading then Skeleton
    else if HasError(error) then ErrorRow
    else if rowCount == 0 then EmptyRow
    else Rows
  }

  /** `expandable?.condition?.(row) ?? true`. */
  function CanExpand(e: Option<Expandable>, row: Row): bool {
    e.None? || e.value.condition.None? || e.value.condition.value(row)
  }

  /** The expanded-content row is shown for an expandable table, an allowed row and an expanded id. */
  function ShowExpanded(e: Option<Expandable>, row: Row, rowId: string, expanded: set<string>): (b: bool)
    ensures b <==> e.Some? && (e.value.condition.None? || e.value.condition.value(row)) && rowId in expanded
  {
    e.Some? && CanExpand(e, row) && rowId in expanded
  }

  /** One rendered body row. */
  datatype Line<N> =
    | SkeletonBlock(rows: nat, columns: nat, hasExpandable: bool)
    | ErrorLine(colSpan: nat, message: string)
    | EmptyLine(colSpan: nat, message: string)
    | DataLine(id: string, cells: seq<Cell<N>>)
    | ExpandedLine(id: string, colSpan: nat)

  function Cells<N>(row: Row, columns: seq<Column<N>>): (cs: seq<Cell<N>>)
    ensures |cs| == |columns|
    ensures forall k :: 0 <= k < |cs| ==> cs[k] == CellValue(row, columns[k])
  {
    seq(|columns|, k requires 0 <= k < |columns| => CellValue(row, columns[k]))
  }

  /** The rows for `rows`, whose first element sits at position `from` of the page. */
  function RowLines<N>(cfg: Config<N>, rows: seq<Row>, from: nat, expanded: set<string>): seq<Line<N>>
    decreases |rows|
  {
    if |rows| == 0 then []
    else
      var row := rows[0];
      var id := RowId(cfg.expandable, row, from);
      var span := |cfg.columns| + (if cfg.hasActions then 1 else 0);
      [DataLine(id, Cells(row, cfg.columns))]
      + (if ShowExpanded(cfg.expandable, row, id, expanded) then [ExpandedLine(id, span)] else [])
      + RowLines(cfg, rows[1..], from + 1, expanded)
  }

  /** The table body for one fetch state. */
  function Body<N>(cfg: Config<N>, isLoading: bool, error: Option<string>, data: seq<Row>, expanded: set<string>): seq<Line<N>> {
    match SelectBodyView(isLoading, error, |data|)
    case Skeleton => [SkeletonBlock(cfg.loadingRows.GetOr(DefaultLoadingRows), |cfg.columns|, cfg.expandable.Some?)]
    case ErrorRow => [ErrorLine(TotalColumns(cfg), error.value)]
    case EmptyRow => [EmptyLine(TotalColumns(cfg), cfg.emptyMessage.GetOr(DefaultEmptyMessage))]
    case Rows => RowLines(cfg, data, 0, expanded)
  }

  /** The ids of the data rows among `lines`, in order. */
  function DataIds<N>(lines: seq<Line<N>>): seq<string> {
    if |lines| == 0 then []
    else (if lines[0].DataLine? then [lines[0].id] else []) + DataIds(lines[1..])
  }

  lemma {:induction false} DataIdsAppend<N>(a: seq<Line<N>>, b: seq<Line<N>>)
    ensures DataIds(a + b) == DataIds(a) + DataIds(b)
  {
    if |a| == 0 {
      assert a + b == b;
    } else {
      var first: seq<string> := if a[0].DataLine? then [a[0].id] else [];
      DataIdsAppend(a[1..], b);
      assert (a + b)[0] == a[0];
      assert (a + b)[1..] == a[1..] + b;
      assert DataIds(a + b) == first + DataIds(a[1..] + b);
      assert DataIds(a) == first + DataIds(a[1..]);
    }
  }

  /** One data row per fetched row, in the fetched order, each keyed by its row id. */
  lemma {:induction false} RowLinesFollowRows<N>(cfg: Config<N>, rows: seq<Row>, from: nat, expanded: set<string>)
    ensures DataIds(RowLines(cfg, rows, from, expanded))
      == seq(|rows|, k requires 0 <= k < |rows| => RowId(cfg.expandable, rows[k], from + k))
    decreases |rows|
  {
    if |rows| > 0 {
      var row := rows[0];
      var id := RowId(cfg.expandable, row, from);
      var span := |cfg.columns| + (if cfg.hasActions then 1 else 0);
      var head: seq<Line<N>> := [DataLine(id, Cells(row, cfg.columns))]
        + (if ShowExpanded(cfg.expandable, row, id, expanded) then [ExpandedLine(id, span)] else []);
      var tail := RowLines(cfg, rows[1..], from + 1, expanded);
      RowLinesFollowRows(cfg, rows[1..], from + 1, expanded);
      assert RowLines(cfg, rows, from, expanded) == head + tail;
      DataIdsAppend(head, tail);
      assert DataIds(head) == [id] by {
        assert head[1..] == [] || head[1..] == [ExpandedLine(id, span)];
      }
    }
  }

  /** The ids of the expanded-content rows among `lines`, in order. */
  function ExpandedIds<N>(lines: seq<Line<N>>): seq<string> {
    if |lines| == 0 then []
    else (if lines[0].ExpandedLine? then [lines[0].id] else []) + ExpandedIds(lines[1..])
  }

  lemma {:induction false} ExpandedIdsAppend<N>(a: seq<Line<N>>, b: seq<Line<N>>)
    ensures ExpandedIds(a + b) == ExpandedIds(a) + ExpandedIds(b)
  {
    if |a| == 0 {
      assert a + b == b;
    } else {
      var first: seq<string> := if a[0].ExpandedLine? then [a[0].id] else [];
      ExpandedIdsAppend(a[1..], b);
      assert (a + b)[0] == a[0];
      assert (a + b)[1..] == a[1..] + b;
      assert ExpandedIds(a + b) == first + ExpandedIds(a[1..] + b);
      assert ExpandedIds(a) == first + ExpandedIds(a[1..]);
    }
  }

  /** A fetched row together with the id `getRowId` gives it. */
  datatype Entry = Entry(row: Row, id: string)

  /** The rows of `rows`, whose first element sits at position `from`, with their ids. */
  function Entries(e: Option<Expandable>, rows: seq<Row>, from: nat): (es: seq<Entry>)
    ensures |es| == |rows|
    ensures forall k :: 0 <= k < |es| ==> es[k] == Entry(rows[k], RowId(e, rows[k], from + k))
  {
    seq(|rows|, k requires 0 <= k < |rows| => Entry(rows[k], RowId(e, rows[k], from + k)))
  }

  function IdsOf(es: seq<Entry>): (ids: seq<string>)
    ensures |ids| == |es|
    ensures forall k :: 0 <= k < |ids| ==> ids[k] == es[k].id
  {
    seq(|es|, k requires 0 <= k < |es| => es[k].id)
  }

  /** Whether an entry's expanded-content row is shown. */
  function Shown(e: Option<Expandable>, expanded: set<string>): Entry -> bool {
    (en: Entry) => ShowExpanded(e, en.row, en.id, expanded)
  }

  /**
   * The expanded-content rows are, in order, those of exactly the fetched rows for which
   * `ShowExpanded` holds: the table is expandable, the row passes `condition`, and its id
   * is in the expanded set.
   */
  lemma {:induction false} ExpandedRowsAreShownRows<N>(cfg: Config<N>, rows: seq<Row>, from: nat, expanded: set<string>)
    ensures ExpandedIds(RowLines(cfg, rows, from, expanded))
      == IdsOf(Keep(Entries(cfg.expandable, rows, from), Shown(cfg.expandable, expanded)))
    decreases |rows|
  {
    var shown := Shown(cfg.expandable, expanded);
    if |rows| > 0 {
      var row := rows[0];
      var id := RowId(cfg.expandable, row, from);
      var span := |cfg.columns| + (if cfg.hasActions then 1 else 0);
      var head: seq<Line<N>> := [DataLine(id, Cells(row, cfg.columns))]
        + (if ShowExpanded(cfg.expandable, row, id, expanded) then [ExpandedLine(id, span)] else []);
      var tail := RowLines(cfg, rows[1..], from + 1, expanded);
      ExpandedRowsAreShownRows(cfg, rows[1..], from + 1, expanded);
      assert RowLines(cfg, rows, from, expanded) == head + tail;
      ExpandedIdsAppend(head, tail);
      assert ExpandedIds(head) == (if shown(Entry(row, id)) then [id] else []) by {
        assert head[1..] == [] || head[1..] == [ExpandedLine(id, span)];
      }
      KeepEntriesStep(cfg.expandable, rows, from, shown);
      var kept := Keep(Entries(cfg.expandable, rows[1..], from + 1), shown);
      if shown(Entry(row, id)) {
        IdsOfCons(Entry(row, id), kept);
      }
    } else {
      assert Entries(cfg.expandable, rows, from) == [];
    }
  }

  /** Filtering the entries of `rows` looks at the first row, then at the entries of the rest. */
  lemma KeepEntriesStep(e: Option<Expandable>, rows: seq<Row>, from: nat, p: Entry -> bool)
    requires |rows| > 0
    ensures var first := Entry(rows[0], RowId(e, rows[0], from));
      var rest := Keep(Entries(e, rows[1..], from + 1), p);
      Keep(Entries(e, rows, from), p) == if p(first) then [first] + rest else rest
  {
    var es := Entries(e, rows, from);
    assert es[1..] == Entries(e, rows[1..], from + 1);
  }

  lemma IdsOfCons(en: Entry, es: seq<Entry>)
    ensures IdsOf([en] + es) == [en.id] + IdsOf(es)
  {
    assert IdsOf([en] + es)[1..] == IdsOf(es);
  }

  /** Each expanded-content row directly follows the data row with its id, and that id is expanded. */
  predicate ExpansionsFollowRows<N>(lines: seq<Line<N>>, expanded: set<string>) {
    forall j :: 0 <= j < |lines| && lines[j].ExpandedLine? ==>
      j > 0 && lines[j - 1].DataLine? && lines[j - 1].id == lines[j].id && lines[j].id in expanded
  }

  /**
   * Every expanded-content row directly follows the data row with the same id, whose id
   * is expanded; a table that is not expandable has none.
   */
  lemma {:induction false} ExpandedLinesFollowTheirRow<N>(cfg: Config<N>, rows: seq<Row>, from: nat, expanded: set<string>)
    ensures ExpansionsFollowRows(RowLines(cfg, rows, from, expanded), expanded)
    ensures cfg.expandable.None? ==> forall l :: l in RowLines(cfg, rows, from, expanded) ==> !l.ExpandedLine?
    decreases |rows|
  {
    if |rows| > 0 {
      ExpandedLinesFollowTheirRow(cfg, rows[1..], from + 1, expanded);
      var row := rows[0];
      var id := RowId(cfg.expandable, row, from);
      var span := |cfg.columns| + (if cfg.hasActions then 1 else 0);
      var head: seq<Line<N>> := [DataLine(id, Cells(row, cfg.columns))]
        + (if ShowExpanded(cfg.expandable, row, id, expanded) then [ExpandedLine(id, span)] else []);
      var tail := RowLines(cfg, rows[1..], from + 1, expanded);
      var lines := RowLines(cfg, rows, from, expanded);
      assert lines == head + tail;
      assert ExpansionsFollowRows(tail, expanded);
      forall j | 0 <= j < |lines| && lines[j].ExpandedLine?
        ensures j > 0 && lines[j - 1].DataLine? && lines[j - 1].id == lines[j].id && lines[j].id in expanded
      {
        if j < |head| {
          assert lines[j] == head[j];
          assert lines[0] == head[0];
        } else {
          var t := j - |head|;
          assert lines[j] == tail[t];
          assert lines[j - 1] == tail[t - 1];
        }
      }
      if cfg.expandable.None? {
        forall l | l in lines
          ensures !l.ExpandedLine?
        {
          if l in tail {
          } else {
            assert l in head;
          }
        }
      }
    }
  }

  /** Error and empty rows span every header column. */
  lemma SpanningRowsCoverHeader<N>(cfg: Config<N>, isLoading: bool, error: Option<string>, data: seq<Row>, expanded: set<string>)
    ensures var lines := Body(cfg, isLoading, error, data, expanded);
      forall j :: 0 <= j < |lines| && (lines[j].ErrorLine? || lines[j].EmptyLine?) ==>
        lines[j].colSpan == |HeaderRow(cfg)|
  {
    TotalColumnsIsHeaderWidth(cfg);
    var lines := Body(cfg, isLoading, error, data, expanded);
    var view := SelectBodyView(isLoading, error, |data|);
    if view.Rows? {
      RowLinesHaveNoSpanningRows(cfg, data, 0, expanded);
      assert lines == RowLines(cfg, data, 0, expanded);
      assert OnlyRowLines(lines);
    }
  }

  /**
   * The body is the fetched rows' lines exactly in the rows view; every other view is
   * a single skeleton, error or empty line.
   */
  lemma BodyIsRowLinesIffRowsView<N>(cfg: Config<N>, isLoading: bool, error: Option<string>, data: seq<Row>, expanded: set<string>)
    ensures Body(cfg, isLoading, error, data, expanded) == RowLines(cfg, data, 0, expanded)
      <==> SelectBodyView(isLoading, error, |data|).Rows?
    ensures !SelectBodyView(isLoading, error, |data|).Rows? ==>
      var lines := Body(cfg, isLoading, error, data, expanded);
      |lines| == 1 && !lines[0].DataLine? && !lines[0].ExpandedLine?
  {
    var rl := RowLines(cfg, data, 0, expanded);
    match SelectBodyView(isLoading, error, |data|)
    case Rows =>
    case EmptyRow =>
      assert rl == [];
    case _ =>
      if |data| == 0 {
        assert rl == [];
      } else {
        assert rl[0].DataLine?;
      }
  }

  /** Only data rows and expanded-content rows. */
  predicate OnlyRowLines<N>(lines: seq<Line<N>>) {
    forall j :: 0 <= j < |lines| ==> lines[j].DataLine? || lines[j].ExpandedLine?
  }

  lemma {:induction false} RowLinesHaveNoSpanningRows<N>(cfg: Config<N>, rows: seq<Row>, from: nat, expanded: set<string>)
    ensures OnlyRowLines(RowLines(cfg, rows, from, expanded))
    decreases |rows|
  {
    if |rows| > 0 {
      RowLinesHaveNoSpanningRows(cfg, rows[1..], from + 1, expanded);
      var row := rows[0];
      var id := RowId(cfg.expandable, row, from);
      var span := |cfg.columns| + (if cfg.hasActions then 1 else 0);
      var head: seq<Line<N>> := [DataLine(id, Cells(row, cfg.columns))]
        + (if ShowExpanded(cfg.expandable, row, id, expanded) then [ExpandedLine(id, span)] else []);
      var tail := RowLines(cfg, rows[1..], from + 1, expanded);
      var lines := RowLines(cfg, rows, from, expanded);
      assert lines == head + tail;
      assert OnlyRowLines(tail);
      forall j | 0 <= j < |lines|
        ensures lines[j].DataLine? || lines[j].ExpandedLine?
      {
        if j < |head| {
          assert lines[j] == head[j];
        } else {
          assert lines[j] == tail[j - |head|];
        }
      }
    }
  }
}
