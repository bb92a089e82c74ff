/** The destination relation `nginx_access_logs`: its column types as the
    `CREATE TABLE IF NOT EXISTS` statement declares them, and the column list
    handed to the bulk copy. Only the shapes are modelled; no database work. */
module Schema {
  import opened ByteStrings
  import opened Strconv

  datatype SqlType = BigInt | VarChar(width: nat) | DoublePrecision

  datatype Column = Column(name: string, sqlType: SqlType)

  /** One cell of a row as it is handed to the bulk copy. */
  datatype Value = BigIntVal(n: int) | TextVal(s: Bytes) | DoubleVal(x: real)

  const LineNo: string := "line_no"

  /** Declared widths, in bytes, of the long and the short text columns;
      validation rejects a field longer than its column's width. */
  const RequestLimit: nat := 4096
  const ShortLimit: nat := 255

  /** The table definition, in declaration order. */
  const Table: seq<Column> := [
    Column(LineNo, BigInt),
    Column("request", VarChar(RequestLimit)),
    Column("status", BigInt),
    Column("body_bytes_sent", BigInt),
    Column("remote_addr", VarChar(ShortLimit)),
    Column("upstream_response_time", DoublePrecision),
    Column("http_x_forwarded_for", VarChar(ShortLimit)),
    Column("host", VarChar(ShortLimit)),
    Column("remote_user", VarChar(ShortLimit)),
    Column("time_local", VarChar(ShortLimit)),
    Column("http_referer", VarChar(RequestLimit)),
    Column("http_user_agent", VarChar(RequestLimit)),
    Column("request_time", DoublePrecision)
  ]

  /** The column names passed to the bulk copy, in order. */
  const CopyColumns: seq<string> := [
    "line_no",
    "request",
    "status",
    "body_bytes_sent",
    "remote_addr",
    "upstream_response_time",
    "http_x_forwarded_for",
    "host",
    "remote_user",
    "time_local",
    "http_referer",
    "http_user_agent",
    "request_time"
  ]

  /** The cell has the kind of value the column type holds. */
  predicate HasKind(v: Value, t: SqlType) {
    match t
    case BigInt => v.BigIntVal?
    case VarChar(_) => v.TextVal?
    case DoublePrecision => v.DoubleVal?
  }

  /** The cell has its column's type, lies in the BIGINT range when it is an
      integer, and is within the declared width in bytes when it is text.
      Whether the text is valid in the database's encoding is not part of it. */
  predicate Fits(v: Value, t: SqlType) {
    HasKind(v, t) &&
    match t
    case BigInt => MinInt64 <= v.n <= MaxInt64
    case VarChar(w) => |v.s| <= w
    case DoublePrecision => true
  }

  /** The copy names the table's columns, one for one and in the same order,
      and no column name occurs twice. */
  lemma CopyColumnsMatchTable()
    ensures |CopyColumns| == |Table| == 13
    ensures forall k :: 0 <= k < |Table| ==> CopyColumns[k] == Table[k].name
    ensures forall j, k :: 0 <= j < k < |Table| ==> Table[j].name != Table[k].name
  {
  }
}
