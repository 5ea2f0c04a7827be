/**
 * The viewer session's data, built once when a file is opened: the file
 * summary, the key/value metadata flattened to display pairs, one nine-cell
 * display row per schema column, the widest column name, the row-group
 * metadata, the first decoded batch and the initial cursor and window of the
 * data tab.  Nothing in the shown code changes a viewer after it is built.
 */
module App {
  import opened Wrappers
  import opened Text
  import opened Parquet

  datatype Viewer = Viewer(
    version: string,
    numRows: int,
    numCols: nat,
    numRowGroups: nat,
    createdBy: string,
    fileKvData: seq<(string, string)>,
    schemaTableData: seq<seq<string>>,
    maxColNameWidth: nat,
    fileStem: string,
    rowGroups: seq<RowGroup>,
    batch: RecordBatch,
    batchSize: nat,
    selectedRow: nat,
    selectedCol: nat,
    rowOffset: nat,
    visibleRows: nat,
    colOffset: nat,
    visibleCols: nat)

  /**
   * Why `Viewer::new` gives no viewer: `reader.next().unwrap()` panics when the
   * reader yields no first batch, and `?` passes on the reader's error when the
   * first batch fails to decode.
   */
  datatype ViewerError = NoFirstBatch | BatchReadError(message: string)

  const BatchSize: nat := 64
  const InitialVisibleRows: nat := 50
  const InitialVisibleCols: nat := 10
  const SchemaRowWidth: nat := 9

  // ------------------------------------------------------- key/value metadata

  /** `data` lists the key/value metadata in order, duplicates kept, a missing value shown as "". */
  ghost predicate IsKvFlattening(kvData: Option<seq<KeyValue>>, data: seq<(string, string)>)
  {
    match kvData
    case None => data == []
    case Some(kvs) =>
      && |data| == |kvs|
      && forall i :: 0 <= i < |kvs| ==>
           && data[i].0 == kvs[i].key
           && data[i].1 == (if kvs[i].value.Some? then kvs[i].value.value else "")
  }

  method FlattenKeyValues(kvData: Option<seq<KeyValue>>) returns (data: seq<(string, string)>)
    ensures IsKvFlattening(kvData, data)
  {
    data := [];
    if kvData.Some? {
      var kvs := kvData.value;
      for i := 0 to |kvs|
        invariant |data| == i
        invariant forall k :: 0 <= k < i ==>
                    data[k] == (kvs[k].key, if kvs[k].value.Some? then kvs[k].value.value else "")
      {
        data := data + [(kvs[i].key, UnwrapOr(kvs[i].value, ""))];
      }
    }
  }

  // ------------------------------------------------------------ schema table

  /** The nine display cells of one schema column. */
  function SchemaRow(c: ColumnDescriptor): (row: seq<string>)
    ensures |row| == SchemaRowWidth
    ensures row[0] == c.name && row[3] == c.convertedType && row[8] == c.sortOrder
    ensures row[2] == (if c.logicalType.Some? then c.logicalType.value else "")
    ensures row[1] == (if c.Primitive? then "primitive" else "group")
    ensures c.Group? <==> row[4] == row[5] == row[6] == row[7] == ""
    ensures c.Primitive? ==> row[4] == c.physicalType
  {
    var logical := UnwrapOr(c.logicalType, "");
    match c
    case Primitive(name, _, converted, physical, typeLength, scale, precision, sortOrder) =>
      [name, "primitive", logical, converted, physical,
       IntToString(typeLength), IntToString(scale), IntToString(precision), sortOrder]
    case Group(name, _, converted, sortOrder) =>
      [name, "group", logical, converted, "", "", "", "", sortOrder]
  }

  /** The numeric cells of a primitive column's row read back as its type length, scale and precision. */
  lemma SchemaRowNumbersReadBack(c: ColumnDescriptor)
    requires c.Primitive?
    ensures ParseInt(SchemaRow(c)[5]) == Some(c.typeLength)
    ensures ParseInt(SchemaRow(c)[6]) == Some(c.scale)
    ensures ParseInt(SchemaRow(c)[7]) == Some(c.precision)
  {
    IntToStringRoundTrip(c.typeLength);
    IntToStringRoundTrip(c.scale);
    IntToStringRoundTrip(c.precision);
  }

  /** The width `s.len()` reports for a column name: its length in UTF-8 bytes. */
  function NameWidth(c: ColumnDescriptor): nat
  {
    Utf8Length(c.name)
  }

  /** `w` is the largest name width among the first `n` columns, or 0 when `n` is 0. */
  ghost predicate IsMaxNameWidthOf(columns: seq<ColumnDescriptor>, n: nat, w: nat)
    requires n <= |columns|
  {
    && (forall k :: 0 <= k < n ==> NameWidth(columns[k]) <= w)
    && (if n == 0 then w == 0 else exists k :: 0 <= k < n && NameWidth(columns[k]) == w)
  }

  /** The running maximum `max_col_name_width` holds after the first `n` columns. */
  function MaxNameWidth(columns: seq<ColumnDescriptor>, n: nat): (w: nat)
    requires n <= |columns|
    ensures n == 0 ==> w == 0
    ensures n > 0 ==> NameWidth(columns[n - 1]) <= w
  {
    if n == 0 then 0
    else
      var w := MaxNameWidth(columns, n - 1);
      if NameWidth(columns[n - 1]) > w then NameWidth(columns[n - 1]) else w
  }

  /** The running maximum is the largest name width among the columns seen, and 0 before any. */
  lemma {:induction false} MaxNameWidthIsMax(columns: seq<ColumnDescriptor>, n: nat)
    requires n <= |columns|
    ensures IsMaxNameWidthOf(columns, n, MaxNameWidth(columns, n))
  {
    if n > 0 {
      MaxNameWidthIsMax(columns, n - 1);
    }
  }

  /** `w` is the largest name width among `columns`, or 0 when there are none. */
  ghost predicate IsMaxNameWidth(columns: seq<ColumnDescriptor>, w: nat)
  {
    IsMaxNameWidthOf(columns, |columns|, w)
  }

  /** The loop of `Viewer::new` over the schema columns. */
  method BuildSchemaTable(columns: seq<ColumnDescriptor>) returns (rows: seq<seq<string>>, maxWidth: nat)
    ensures |rows| == |columns|
    ensures forall i :: 0 <= i < |columns| ==> rows[i] == SchemaRow(columns[i])
    ensures IsMaxNameWidth(columns, maxWidth)
  {
    rows := [];
    maxWidth := 0;
    for i := 0 to |columns|
      invariant |rows| == i
      invariant forall k {:trigger rows[k]} :: 0 <= k < i ==> rows[k] == SchemaRow(columns[k])
      invariant maxWidth == MaxNameWidth(columns, i)
    {
      var width := NameWidth(columns[i]);
      if width > maxWidth {
        maxWidth := width;
      }
      rows := rows + [SchemaRow(columns[i])];
    }
    MaxNameWidthIsMax(columns, |columns|);
  }

  // ---------------------------------------------------------------- Viewer::new

  /** The viewer `Viewer::new` builds from the parsed metadata, the file stem and the first batch. */
  ghost predicate IsNewViewer(metadata: ParquetMetaData, name: Option<string>, batch: RecordBatch, v: Viewer)
  {
    var file := metadata.fileMetadata;
    && v.version == IntToString(file.version)
    && v.numRows == file.numRows
    && v.numCols == |file.columns|
    && v.numRowGroups == |metadata.rowGroups|
    && v.createdBy == (if file.createdBy.Some? then file.createdBy.value else "")
    && IsKvFlattening(file.keyValueMetadata, v.fileKvData)
    && |v.schemaTableData| == |file.columns|
    && (forall i :: 0 <= i < |file.columns| ==> v.schemaTableData[i] == SchemaRow(file.columns[i]))
    && IsMaxNameWidth(file.columns, v.maxColNameWidth)
    && v.fileStem == (if name.Some? then name.value else "no name")
    && v.rowGroups == metadata.rowGroups
    && v.batch == batch
    && v.batchSize == BatchSize
    && v.selectedRow == 0 && v.selectedCol == 0
    && v.rowOffset == 0 && v.colOffset == 0
    && v.visibleRows == InitialVisibleRows && v.visibleCols == InitialVisibleCols
  }

  /**
   * `Viewer::new`, with the footer already parsed into `metadata` and the
   * record-batch reader's first answer (none, an error, or a batch) given as
   * `firstBatch`.
   */
  method NewViewer(metadata: ParquetMetaData, name: Option<string>, firstBatch: Option<Result<RecordBatch, string>>)
    returns (r: Result<Viewer, ViewerError>)
    ensures r.Failure? <==> firstBatch.None? || firstBatch.value.Failure?
    ensures firstBatch.None? ==> r == Failure(NoFirstBatch)
    ensures firstBatch.Some? && firstBatch.value.Failure? ==> r == Failure(BatchReadError(firstBatch.value.error))
    ensures r.Success? ==> IsNewViewer(metadata, name, firstBatch.value.value, r.value)
  {
    var file := metadata.fileMetadata;
    var version := IntToString(file.version);
    var createdBy := UnwrapOr(file.createdBy, "");
    var fileKvData := FlattenKeyValues(file.keyValueMetadata);
    var schemaTableData, maxColNameWidth := BuildSchemaTable(file.columns);
    var fileStem := UnwrapOr(name, "no name");
    if firstBatch.None? {
      return Failure(NoFirstBatch);
    }
    if firstBatch.value.Failure? {
      return Failure(BatchReadError(firstBatch.value.error));
    }
    r := Success(Viewer(
      version, file.numRows, |file.columns|, |metadata.rowGroups|, createdBy,
      fileKvData, schemaTableData, maxColNameWidth, fileStem, metadata.rowGroups,
      firstBatch.value.value, BatchSize,
      0, 0, 0, InitialVisibleRows, 0, InitialVisibleCols));
  }
}
