/**
 * The display logic of the two tabs that does not depend on the terminal:
 * the tab enumeration, cell truncation, the row/column window over a record
 * batch, the text of the file-metadata and column-chunk panels (sizes in kB,
 * statistics rendered as strings) and which data cell is highlighted.
 * Widgets, layout and colours are not part of this model.
 */
module Ui {
  import opened Wrappers
  import opened Text
  import opened Parquet
  import opened App

  // --------------------------------------------------------------------- tabs

  datatype Tab = Data | Metadata

  /** `Tab::default()`: the tab with discriminant 0. */
  function DefaultTab(): (t: Tab)
    ensures TabIndex(t) == 0
  {
    Data
  }

  /** `tab as usize`: the enum's discriminant, 0 for Data and 1 for Metadata. */
  function TabIndex(t: Tab): (i: nat)
    ensures i < 2
    ensures i == 0 <==> t.Data?
  {
    match t
    case Data => 0
    case Metadata => 1
  }

  /** `Tab::get_headers()`: one header per tab, in discriminant order. */
  function Headers(): (headers: seq<string>)
    ensures |headers| == 2
    ensures forall t :: TabIndex(t) < |headers|
  {
    ["Data", "Metadata"]
  }

  /** `N_TABS`: the number of headers less one, which is the largest tab index. */
  function NTabs(): (n: nat)
    ensures n + 1 == |Headers()|
    ensures forall t :: TabIndex(t) <= n
  {
    |Headers()| - 1
  }

  /** `impl From<usize> for Tab`: a valid index names its tab, any other gives the default tab. */
  function TabFromIndex(v: nat): (t: Tab)
    ensures v < |Headers()| ==> TabIndex(t) == v
    ensures v >= |Headers()| ==> t == DefaultTab()
  {
    match v
    case 0 => Data
    case 1 => Metadata
    case _ => DefaultTab()
  }

  lemma TabIndexRoundTrip(t: Tab)
    ensures TabFromIndex(TabIndex(t)) == t
  {
  }

  /** `N_TABS` is the largest tab index, which is 1. */
  lemma NTabsIsLastIndex()
    ensures NTabs() == 1 && NTabs() == TabIndex(Metadata)
    ensures forall t :: TabIndex(t) <= NTabs()
  {
  }

  // --------------------------------------------------------------- truncation

  /** Width of a data column on screen; a cell shows one character less, then a space. */
  const ColWidth: nat := 10
  const CellWidth: nat := ColWidth - 1

  /**
   * `mask_string(s, max_len)`: the first `max_len` characters of `s` when it
   * has more, else `s` itself.  The source cuts at the byte offset of the
   * character numbered `max_len`, which is the same cut on a string of
   * characters.
   */
  function MaskString(s: string, maxLen: nat): (r: string)
    ensures |r| <= maxLen || r == s
    ensures r <= s
    ensures |s| <= maxLen ==> r == s
    ensures |s| > maxLen ==> |r| == maxLen
  {
    if |s| > maxLen then s[..maxLen] else s
  }

  // ------------------------------------------------------------ batch window

  /** Failures the source reaches through a panic while rendering. */
  datatype RenderError = IndexOutOfBounds | InvalidUtf8 | NoSelection

  /**
   * The cells of rows `row..row + nrows` of one column; the arrow formatter
   * panics past the column's end, and an empty range reads no cell at all.
   */
  function FormatRows(cells: seq<string>, row: nat, nrows: nat): (r: Result<seq<string>, RenderError>)
    ensures r.Success? <==> nrows == 0 || row + nrows <= |cells|
    ensures r.Success? ==> |r.value| == nrows && forall j :: 0 <= j < nrows ==> r.value[j] == cells[row + j]
  {
    if nrows == 0 then Success([])
    else if row + nrows <= |cells| then Success(cells[row..row + nrows])
    else Failure(IndexOutOfBounds)
  }

  /** Formats the first `ncols` of `fields`, stopping at the first column that is too short. */
  function SliceFields(fields: seq<Field>, row: nat, nrows: nat, ncols: nat): (r: Result<seq<seq<string>>, RenderError>)
    ensures r.Success? <==> nrows == 0 || forall k :: 0 <= k < |fields| && k < ncols ==> row + nrows <= |fields[k].cells|
    ensures r.Success? ==> |r.value| == (if |fields| < ncols then |fields| else ncols)
    ensures r.Success? ==> forall i :: 0 <= i < |r.value| ==>
              |r.value[i]| == nrows && forall j :: 0 <= j < nrows ==> r.value[i][j] == fields[i].cells[row + j]
    decreases |fields|
  {
    if ncols == 0 || fields == [] then Success([])
    else
      match FormatRows(fields[0].cells, row, nrows)
      case Failure(e) => Failure(e)
      case Success(first) =>
        match SliceFields(fields[1..], row, nrows, ncols - 1)
        case Failure(e) => Failure(e)
        case Success(rest) => Success([first] + rest)
  }

  /** Number of columns a window of `ncols` starting at column `col` shows out of `n`. */
  function WindowWidth(n: nat, col: nat, ncols: nat): nat
  {
    if n <= col then 0 else if n - col < ncols then n - col else ncols
  }

  /**
   * `batch_slice(batch, row, col, nrows, ncols)`: at most `ncols` columns from
   * column `col` on, each holding exactly the cells of rows `row..row + nrows`.
   */
  function BatchSlice(batch: RecordBatch, row: nat, col: nat, nrows: nat, ncols: nat)
    : (r: Result<seq<seq<string>>, RenderError>)
    ensures r.Success? <==>
              nrows == 0 || forall k :: col <= k < |batch.fields| && k < col + ncols ==> row + nrows <= |batch.fields[k].cells|
    ensures r.Success? ==> |r.value| == WindowWidth(|batch.fields|, col, ncols)
    ensures r.Success? ==>
              forall i :: 0 <= i < |r.value| ==>
                |r.value[i]| == nrows && forall j :: 0 <= j < nrows ==> r.value[i][j] == batch.fields[col + i].cells[row + j]
  {
    var fields := if col <= |batch.fields| then batch.fields[col..] else [];
    var r := SliceFields(fields, row, nrows, ncols);
    assert r.Success? <==>
             nrows == 0 || forall k :: col <= k < |batch.fields| && k < col + ncols ==> row + nrows <= |batch.fields[k].cells| by {
      if col <= |batch.fields| {
        assert forall k :: col <= k < |batch.fields| ==> batch.fields[k] == fields[k - col];
      }
    }
    r
  }

  /** The names of the fields the window shows, in order. */
  function WindowHeaders(batch: RecordBatch, col: nat, ncols: nat): (names: seq<string>)
    ensures |names| == WindowWidth(|batch.fields|, col, ncols)
    ensures forall i :: 0 <= i < |names| ==> names[i] == batch.fields[col + i].name
  {
    var n := WindowWidth(|batch.fields|, col, ncols);
    seq(n, i requires 0 <= i < n => batch.fields[col + i].name)
  }

  // -------------------------------------------------------------- data tab

  /** Cell `(i, j)` of the window is highlighted exactly when it is the selected cell. */
  function IsHighlighted(v: Viewer, i: nat, j: nat): (b: bool)
    ensures b ==> v.colOffset <= v.selectedCol && v.rowOffset <= v.selectedRow
  {
    i + v.colOffset == v.selectedCol && j + v.rowOffset == v.selectedRow
  }

  /** At most one cell of the window is highlighted. */
  lemma HighlightIsUnique(v: Viewer, i: nat, j: nat, i': nat, j': nat)
    requires IsHighlighted(v, i, j) && IsHighlighted(v, i', j')
    ensures i == i' && j == j'
  {
  }

  /** The selected cell is highlighted at its position relative to the window's offsets. */
  lemma SelectedCellIsHighlighted(v: Viewer)
    requires v.colOffset <= v.selectedCol && v.rowOffset <= v.selectedRow
    ensures IsHighlighted(v, v.selectedCol - v.colOffset, v.selectedRow - v.rowOffset)
  {
  }

  datatype Cell = Cell(text: string, highlighted: bool)

  datatype ColumnView = ColumnView(header: string, cells: seq<Cell>)

  /** The text column `render_data` builds from one window column and its header. */
  function ColumnViewOf(v: Viewer, i: nat, header: string, values: seq<string>): ColumnView
  {
    ColumnView(MaskString(header, CellWidth),
               seq(|values|, j requires 0 <= j < |values| =>
                     Cell(MaskString(values[j], CellWidth) + " ", IsHighlighted(v, i, j))))
  }

  /**
   * The loop of `render_data` over the window's columns, zipped with their
   * names: column `k` becomes a header line and one line per visible row.
   */
  method BuildColumnViews(v: Viewer, names: seq<string>, table: seq<seq<string>>)
    returns (columns: seq<ColumnView>)
    requires |names| == |table|
    ensures |columns| == |table|
    ensures forall k :: 0 <= k < |table| ==> columns[k] == ColumnViewOf(v, k, names[k], table[k])
  {
    columns := [];
    for i := 0 to |table|
      invariant |columns| == i
      invariant forall k :: 0 <= k < i ==> columns[k] == ColumnViewOf(v, k, names[k], table[k])
    {
      columns := columns + [ColumnViewOf(v, i, names[i], table[i])];
    }
  }

  /** `render_data`'s text columns: the window of `batch_slice`, each column truncated and the selected cell highlighted. */
  method DataColumns(v: Viewer) returns (r: Result<seq<ColumnView>, RenderError>)
    ensures var slice := BatchSlice(v.batch, v.rowOffset, v.colOffset, v.visibleRows, v.visibleCols);
            && (r.Success? <==> slice.Success?)
            && (r.Success? ==> |r.value| == |slice.value|
                               && forall i :: 0 <= i < |r.value| ==>
                                    r.value[i] == ColumnViewOf(v, i, v.batch.fields[v.colOffset + i].name, slice.value[i]))
  {
    var names := WindowHeaders(v.batch, v.colOffset, v.visibleCols);
    var slice := BatchSlice(v.batch, v.rowOffset, v.colOffset, v.visibleRows, v.visibleCols);
    if slice.Failure? {
      return Failure(slice.error);
    }
    var columns := BuildColumnViews(v, names, slice.value);
    r := Success(columns);
  }

  /**
   * A new viewer's window starts at row 0 and shows 50 rows of the first 10
   * columns, so its first data-tab render fails (the formatter reads past a
   * column's end) whenever one of those columns has fewer than 50 cells.
   */
  lemma ShortFirstBatchFailsFirstRender(metadata: ParquetMetaData, name: Option<string>, batch: RecordBatch, v: Viewer, k: nat)
    requires IsNewViewer(metadata, name, batch, v)
    requires k < |batch.fields| && k < InitialVisibleCols && |batch.fields[k].cells| < InitialVisibleRows
    ensures BatchSlice(v.batch, v.rowOffset, v.colOffset, v.visibleRows, v.visibleCols).Failure?
  {
  }

  // ------------------------------------------------------- file metadata panel

  /** Height of the file-metadata panel: `if kv_n == 0 { 4 } else { 5 + kv_n } as u16`. */
  function MetadataHeight(kvCount: nat): (h: nat)
    ensures h < 0x1_0000
    ensures kvCount + 5 < 0x1_0000 ==> h == (if kvCount == 0 then 4 else 5 + kvCount)
    ensures ((if kvCount == 0 then 4 else 5 + kvCount) - h) % 0x1_0000 == 0
  {
    (if kvCount == 0 then 4 else 5 + kvCount) % 0x1_0000
  }

  /** The lines `render_metadata` writes into the file-metadata panel, each as its text. */
  method FileMetadataLines(v: Viewer) returns (lines: seq<string>)
    ensures |lines| == if v.fileKvData == [] then 2 else 3 + |v.fileKvData|
    ensures lines[0] == "Version: " + v.version + "  |  " + "Created by: " + v.createdBy
    ensures lines[1] == "# rows: " + IntToString(v.numRows) + "  |  " + "# columns: " + NatToString(v.numCols)
                        + "  |  " + "# row groups " + NatToString(v.numRowGroups)
    ensures v.fileKvData != [] ==> lines[2] == "Other"
    ensures forall i :: 0 <= i < |v.fileKvData| ==> lines[3 + i] == v.fileKvData[i].0 + ": " + v.fileKvData[i].1
    ensures |v.fileKvData| + 5 < 0x1_0000 ==> MetadataHeight(|v.fileKvData|) == |lines| + 2
  {
    lines := [
      "Version: " + v.version + "  |  " + "Created by: " + v.createdBy,
      "# rows: " + IntToString(v.numRows) + "  |  " + "# columns: " + NatToString(v.numCols)
      + "  |  " + "# row groups " + NatToString(v.numRowGroups)
    ];
    if v.fileKvData != [] {
      lines := lines + ["Other"];
      for i := 0 to |v.fileKvData|
        invariant |lines| == 3 + i
        invariant lines[2] == "Other"
        invariant lines[0] == "Version: " + v.version + "  |  " + "Created by: " + v.createdBy
        invariant lines[1] == "# rows: " + IntToString(v.numRows) + "  |  " + "# columns: " + NatToString(v.numCols)
                              + "  |  " + "# row groups " + NatToString(v.numRowGroups)
        invariant forall k :: 0 <= k < i ==> lines[3 + k] == v.fileKvData[k].0 + ": " + v.fileKvData[k].1
      {
        var (key, value) := v.fileKvData[i];
        lines := lines + [key + ": " + value];
      }
    }
  }

  // ----------------------------------------------------- column-chunk panel

  /** `compressed_size() / 1000` on an `i64`: division truncating toward zero. */
  function Kilobytes(bytes: int): (kb: int)
    ensures bytes >= 0 ==> 0 <= kb && kb * 1000 <= bytes < kb * 1000 + 1000
    ensures bytes < 0 ==> kb <= 0 && kb * 1000 - 1000 < bytes <= kb * 1000
  {
    if bytes >= 0 then bytes / 1000 else -((-bytes) / 1000)
  }

  /** `v.map_or("".to_string(), |v| v.to_string())` for a value with a string form. */
  function ShowOr<T>(value: Option<T>, show: T -> string): string
  {
    match value
    case None => ""
    case Some(x) => show(x)
  }

  /** `v.map_or("".to_string(), |v| std::str::from_utf8(v.data()).unwrap().to_string())` */
  function DecodeOr(value: Option<seq<byte>>): (r: Result<string, RenderError>)
    ensures value.None? ==> r == Success("")
    ensures r.Failure? <==> Undecodable(value)
    ensures r.Success? && value.Some? ==> Utf8Encode(r.value) == value.value
  {
    match value
    case None => Success("")
    case Some(bytes) =>
      match Utf8Decode(bytes)
      case None => Failure(InvalidUtf8)
      case Some(text) => DecodeEncodeRoundTrip(bytes); Success(text)
  }

  predicate Undecodable(value: Option<seq<byte>>)
  {
    value.Some? && Utf8Decode(value.value).None?
  }

  /** A byte-array minimum or maximum is present and is not valid UTF-8: rendering it panics. */
  predicate HasUndecodableBound(values: TypedStatistics)
  {
    match values
    case ByteArray(s) => Undecodable(s.min) || Undecodable(s.max)
    case FixedLenByteArray(s) => Undecodable(s.min) || Undecodable(s.max)
    case _ => false
  }

  predicate HasMin(values: TypedStatistics)
  {
    match values
    case Boolean(s) => s.min.Some?
    case Int32(s) => s.min.Some?
    case Int64(s) => s.min.Some?
    case Int96(s) => s.min.Some?
    case Float(s) => s.min.Some?
    case Double(s) => s.min.Some?
    case ByteArray(s) => s.min.Some?
    case FixedLenByteArray(s) => s.min.Some?
  }

  predicate HasMax(values: TypedStatistics)
  {
    match values
    case Boolean(s) => s.max.Some?
    case Int32(s) => s.max.Some?
    case Int64(s) => s.max.Some?
    case Int96(s) => s.max.Some?
    case Float(s) => s.max.Some?
    case Double(s) => s.max.Some?
    case ByteArray(s) => s.max.Some?
    case FixedLenByteArray(s) => s.max.Some?
  }

  function DecodeBounds(s: ValueStatistics<seq<byte>>): Result<(string, string), RenderError>
  {
    match DecodeOr(s.min)
    case Failure(e) => Failure(e)
    case Success(min) =>
      match DecodeOr(s.max)
      case Failure(e) => Failure(e)
      case Success(max) => Success((min, max))
  }

  /** The `(min, max)` strings of the statistics match in `render_metadata`. */
  function MinMaxStrings(values: TypedStatistics): (r: Result<(string, string), RenderError>)
    ensures r.Failure? <==> HasUndecodableBound(values)
    ensures r.Success? && !HasMin(values) ==> r.value.0 == ""
    ensures r.Success? && !HasMax(values) ==> r.value.1 == ""
  {
    match values
    case Boolean(s) => Success((ShowOr(s.min, BoolToString), ShowOr(s.max, BoolToString)))
    case Int32(s) => Success((ShowOr(s.min, IntToString), ShowOr(s.max, IntToString)))
    case Int64(s) => Success((ShowOr(s.min, IntToString), ShowOr(s.max, IntToString)))
    case Int96(s) => Success((UnwrapOr(s.min, ""), UnwrapOr(s.max, "")))
    case Float(s) => Success((UnwrapOr(s.min, ""), UnwrapOr(s.max, "")))
    case Double(s) => Success((UnwrapOr(s.min, ""), UnwrapOr(s.max, "")))
    case ByteArray(s) => DecodeBounds(s)
    case FixedLenByteArray(s) => DecodeBounds(s)
  }

  /** A present bound's text reads back as the bound: a number parses back, bytes re-encode to themselves. */
  ghost predicate ShowsBound<T>(bound: Option<T>, text: string, readsBack: (T, string) -> bool)
  {
    bound.Some? ==> readsBack(bound.value, text)
  }

  ghost predicate ReadsBack(values: TypedStatistics, min: string, max: string)
  {
    match values
    case Boolean(s) =>
      ShowsBound(s.min, min, (b, t) => t == (if b then "true" else "false"))
      && ShowsBound(s.max, max, (b, t) => t == (if b then "true" else "false"))
    case Int32(s) =>
      ShowsBound(s.min, min, (n, t) => ParseInt(t) == Some(n)) && ShowsBound(s.max, max, (n, t) => ParseInt(t) == Some(n))
    case Int64(s) =>
      ShowsBound(s.min, min, (n, t) => ParseInt(t) == Some(n)) && ShowsBound(s.max, max, (n, t) => ParseInt(t) == Some(n))
    case Int96(s) => ShowsBound(s.min, min, (x, t) => t == x) && ShowsBound(s.max, max, (x, t) => t == x)
    case Float(s) => ShowsBound(s.min, min, (x, t) => t == x) && ShowsBound(s.max, max, (x, t) => t == x)
    case Double(s) => ShowsBound(s.min, min, (x, t) => t == x) && ShowsBound(s.max, max, (x, t) => t == x)
    case ByteArray(s) =>
      ShowsBound(s.min, min, (b, t) => Utf8Encode(t) == b) && ShowsBound(s.max, max, (b, t) => Utf8Encode(t) == b)
    case FixedLenByteArray(s) =>
      ShowsBound(s.min, min, (b, t) => Utf8Encode(t) == b) && ShowsBound(s.max, max, (b, t) => Utf8Encode(t) == b)
  }

  /** Whenever the statistics render, each present bound's text determines the bound. */
  lemma MinMaxStringsReadBack(values: TypedStatistics)
    requires MinMaxStrings(values).Success?
    ensures ReadsBack(values, MinMaxStrings(values).value.0, MinMaxStrings(values).value.1)
  {
    match values
    case Int32(s) =>
      if s.min.Some? { IntToStringRoundTrip(s.min.value); }
      if s.max.Some? { IntToStringRoundTrip(s.max.value); }
    case Int64(s) =>
      if s.min.Some? { IntToStringRoundTrip(s.min.value); }
      if s.max.Some? { IntToStringRoundTrip(s.max.value); }
    case ByteArray(s) =>
      if s.min.Some? { DecodeEncodeRoundTrip(s.min.value); }
      if s.max.Some? { DecodeEncodeRoundTrip(s.max.value); }
    case FixedLenByteArray(s) =>
      if s.min.Some? { DecodeEncodeRoundTrip(s.min.value); }
      if s.max.Some? { DecodeEncodeRoundTrip(s.max.value); }
    case _ =>
  }

  /** Byte-array bounds that hold the UTF-8 of two strings render as exactly those strings. */
  lemma ByteArrayBoundsShowText(min: string, max: string)
    ensures MinMaxStrings(ByteArray(ValueStatistics(Some(Utf8Encode(min)), Some(Utf8Encode(max))))) == Success((min, max))
    ensures MinMaxStrings(FixedLenByteArray(ValueStatistics(Some(Utf8Encode(min)), Some(Utf8Encode(max)))))
         == Success((min, max))
  {
    EncodeDecodeRoundTrip(min);
    EncodeDecodeRoundTrip(max);
  }

  datatype StatisticsLine = StatisticsLine(min: string, max: string, distinct: string, nulls: string)

  /** `count.map_or("".to_string(), |v| v.to_string())`: a present count's text parses back as the count. */
  lemma ShowCountParsesBack(count: Option<nat>)
    ensures count.None? ==> ShowOr(count, NatToString) == ""
    ensures count.Some? ==> ParseInt(ShowOr(count, NatToString)) == Some(count.value as int)
  {
    if count.Some? {
      NatToStringParses(count.value);
    }
  }

  /** The statistics line of the column-chunk panel. */
  function StatisticsDisplay(stats: Statistics): (r: Result<StatisticsLine, RenderError>)
    ensures r.Failure? <==> HasUndecodableBound(stats.values)
    ensures r.Success? ==> (r.value.distinct == "" <==> stats.distinctCount.None?)
    ensures r.Success? ==> (r.value.nulls == "" <==> stats.nullCount.None?)
    ensures r.Success? ==> MinMaxStrings(stats.values) == Success((r.value.min, r.value.max))
    ensures r.Success? && stats.distinctCount.Some? ==> ParseInt(r.value.distinct) == Some(stats.distinctCount.value as int)
    ensures r.Success? && stats.nullCount.Some? ==> ParseInt(r.value.nulls) == Some(stats.nullCount.value as int)
  {
    ShowCountParsesBack(stats.distinctCount);
    ShowCountParsesBack(stats.nullCount);
    var distinct := ShowOr(stats.distinctCount, NatToString);
    var nulls := ShowOr(stats.nullCount, NatToString);
    match MinMaxStrings(stats.values)
    case Failure(e) => Failure(e)
    case Success((min, max)) => Success(StatisticsLine(min, max, distinct, nulls))
  }

  datatype ChunkSummary = ChunkSummary(
    title: string,
    numValues: string,
    encodings: string,
    compression: string,
    compressedKb: int,
    uncompressedKb: int,
    statistics: Option<StatisticsLine>)

  /** The total number of characters in `items`. */
  function TotalLength(items: seq<string>): nat
  {
    if items == [] then 0 else |items[0]| + TotalLength(items[1..])
  }

  /** `items.join(sep)`: the items in order, with `sep` between neighbours. */
  function Join(items: seq<string>, sep: string): (s: string)
    ensures |items| == 0 ==> s == ""
    ensures |items| == 1 ==> s == items[0]
    ensures |items| > 0 ==> items[0] <= s && |s| == TotalLength(items) + (|items| - 1) * |sep|
  {
    if |items| == 0 then "" else if |items| == 1 then items[0] else items[0] + sep + Join(items[1..], sep)
  }

  /** Joining two non-empty lists puts one separator between their joins. */
  lemma {:induction false} JoinAppend(a: seq<string>, b: seq<string>, sep: string)
    requires |a| > 0 && |b| > 0
    ensures Join(a + b, sep) == Join(a, sep) + sep + Join(b, sep)
    decreases |a|
  {
    assert (a + b)[0] == a[0];
    assert (a + b)[1..] == a[1..] + b;
    if |a| > 1 {
      JoinAppend(a[1..], b, sep);
    }
  }

  predicate ChunkExists(v: Viewer, chunkInd: nat, col: nat)
  {
    chunkInd < |v.rowGroups| && col < |v.rowGroups[chunkInd].columns|
  }

  /**
   * The column-chunk panel of `render_metadata` for row group `chunkInd` and
   * the schema row `selected` in the table: no selection (the `unwrap` of
   * `selected()`) and indexing past either end panic.
   */
  function ChunkMetadata(v: Viewer, chunkInd: nat, selected: Option<nat>): (r: Result<ChunkSummary, RenderError>)
    ensures selected.None? ==> r == Failure(NoSelection)
    ensures selected.Some? && !ChunkExists(v, chunkInd, selected.value) ==> r == Failure(IndexOutOfBounds)
    ensures r.Failure? <==>
              || selected.None?
              || !ChunkExists(v, chunkInd, selected.value)
              || (var stats := v.rowGroups[chunkInd].columns[selected.value].statistics;
                  stats.Some? && HasUndecodableBound(stats.value.values))
    ensures r.Success? ==>
              var chunk := v.rowGroups[chunkInd].columns[selected.value];
              && r.value.title == chunk.name + "[" + NatToString(chunkInd) + "]"
              && ParseInt(r.value.numValues) == Some(chunk.numValues)
              && r.value.encodings == Join(chunk.encodings, ", ")
              && r.value.compression == chunk.compression
              && r.value.compressedKb == Kilobytes(chunk.compressedSize)
              && r.value.uncompressedKb == Kilobytes(chunk.uncompressedSize)
              && (r.value.statistics.Some? <==> chunk.statistics.Some?)
              && (chunk.statistics.Some? ==> Success(r.value.statistics.value) == StatisticsDisplay(chunk.statistics.value))
  {
    if selected.None? then Failure(NoSelection)
    else if !ChunkExists(v, chunkInd, selected.value) then Failure(IndexOutOfBounds)
    else
      var chunk := v.rowGroups[chunkInd].columns[selected.value];
      IntToStringRoundTrip(chunk.numValues);
      var summary := ChunkSummary(
        chunk.name + "[" + NatToString(chunkInd) + "]",
        IntToString(chunk.numValues),
        Join(chunk.encodings, ", "),
        chunk.compression,
        Kilobytes(chunk.compressedSize),
        Kilobytes(chunk.uncompressedSize),
        None);
      match chunk.statistics
      case None => Success(summary)
      case Some(stats) =>
        match StatisticsDisplay(stats)
        case Failure(e) => Failure(e)
        case Success(line) => Success(summary.(statistics := Some(line)))
  }
}
