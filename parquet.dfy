/**
 * What the viewer reads from the parquet and arrow libraries, taken as plain
 * values: the parsed file metadata, the per-row-group column-chunk metadata
 * and one decoded record batch.  Labels the libraries print themselves
 * (converted, physical and logical types, sort order, encodings, compression)
 * and values whose printing is floating point or library formatting (Int96,
 * Float, Double statistics and every data cell) arrive as strings.
 */
module Parquet {
  import opened Wrappers
  import opened Text

  /** One entry of the file's key/value metadata; the value is optional. */
  datatype KeyValue = KeyValue(key: string, value: Option<string>)

  /** A leaf of the schema, as `ColumnDescriptor::self_type` presents it. */
  datatype ColumnDescriptor =
    | Primitive(name: string, logicalType: Option<string>, convertedType: string,
                physicalType: string, typeLength: int, scale: int, precision: int,
                sortOrder: string)
    | Group(name: string, logicalType: Option<string>, convertedType: string, sortOrder: string)

  datatype FileMetadata = FileMetadata(
    version: int,
    numRows: int,
    createdBy: Option<string>,
    keyValueMetadata: Option<seq<KeyValue>>,
    columns: seq<ColumnDescriptor>)

  /** Optional minimum and maximum of one column chunk. */
  datatype ValueStatistics<T> = ValueStatistics(min: Option<T>, max: Option<T>)

  /** `parquet::file::statistics::Statistics`, one variant per physical type. */
  datatype TypedStatistics =
    | Boolean(ValueStatistics<bool>)
    | Int32(ValueStatistics<int>)
    | Int64(ValueStatistics<int>)
    | Int96(ValueStatistics<string>)
    | Float(ValueStatistics<string>)
    | Double(ValueStatistics<string>)
    | ByteArray(ValueStatistics<seq<byte>>)
    | FixedLenByteArray(ValueStatistics<seq<byte>>)

  datatype Statistics = Statistics(
    values: TypedStatistics,
    distinctCount: Option<nat>,
    nullCount: Option<nat>)

  datatype ColumnChunk = ColumnChunk(
    name: string,
    numValues: int,
    encodings: seq<string>,
    compression: string,
    compressedSize: int,
    uncompressedSize: int,
    statistics: Option<Statistics>)

  datatype RowGroup = RowGroup(columns: seq<ColumnChunk>)

  /** Everything the metadata reader parses from the file footer. */
  datatype ParquetMetaData = ParquetMetaData(fileMetadata: FileMetadata, rowGroups: seq<RowGroup>)

  /** One arrow column: its field name and its cells as the arrow formatter prints them. */
  datatype Field = Field(name: string, cells: seq<string>)

  /** A decoded arrow `RecordBatch`, columns in schema order. */
  datatype RecordBatch = RecordBatch(fields: seq<Field>)
}
