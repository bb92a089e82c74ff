/** Validation of one matched log line (a gonx entry) into a typed row: the
    body of the read loop of `main` and its helpers `getString` and
    `checkLength`. Every step either yields a value or the first error met. */
module Fields {
  import opened Wrappers
  import opened ByteStrings
  import opened Strconv
  import opened Schema

  /** One matched line: field name to raw value. */
  type Entry = map<string, Bytes>

  /** The float parser behind `Entry.FloatField` (Go's `strconv.ParseFloat`),
      left abstract: `None` is a parse failure. */
  type FloatParser = Bytes -> Option<real>

  /** Every way the run can abort. */
  datatype RunError =
    | ReadFailed(reason: string)
    | MissingField(field: string)
    | BadInt(raw: Bytes, kind: NumError)
    | BadFloat(raw: Bytes)
    | ValueTooLong(line: int, field: string, limit: int, value: Bytes)


  /** A typed row, its attributes in the order of the destination columns. */
  datatype Row = Row(
    lineNo: int,
    request: Bytes,
    status: int,
    bodyBytesSent: int,
    remoteAddr: Bytes,
    upstreamResponseTime: real,
    httpXForwardedFor: Bytes,
    host: Bytes,
    remoteUser: Bytes,
    timeLocal: Bytes,
    httpReferer: Bytes,
    httpUserAgent: Bytes,
    requestTime: real)

  /** The row as the slice of cells appended to `rows`. */
  function Values(row: Row): (r: seq<Value>)
    ensures |r| == |Table|
    ensures forall k :: 0 <= k < |r| ==> HasKind(r[k], Table[k].sqlType)
    ensures r[0] == BigIntVal(row.lineNo)
  {
    [BigIntVal(row.lineNo), TextVal(row.request), BigIntVal(row.status),
     BigIntVal(row.bodyBytesSent), TextVal(row.remoteAddr), DoubleVal(row.upstreamResponseTime),
     TextVal(row.httpXForwardedFor), TextVal(row.host), TextVal(row.remoteUser),
     TextVal(row.timeLocal), TextVal(row.httpReferer), TextVal(row.httpUserAgent),
     DoubleVal(row.requestTime)]
  }

  /** `Entry.Field`: the raw value, or an error naming the absent field. */
  function Field(e: Entry, name: string): (r: Result<Bytes, RunError>)
    ensures r.Ok? <==> name in e
    ensures r.Ok? ==> r.value == e[name]
    ensures r.Err? ==> r.error == MissingField(name)
  {
    if name in e then Ok(e[name]) else Err(MissingField(name))
  }

  /** `Entry.FloatField`: the field looked up, then parsed as a float. */
  function FloatField(e: Entry, name: string, parseFloat: FloatParser): (r: Result<real, RunError>)
    ensures r.Ok? <==> name in e && parseFloat(e[name]).Some?
    ensures r.Ok? ==> r.value == parseFloat(e[name]).value
    ensures name !in e ==> r == Err(MissingField(name))
    ensures name in e && parseFloat(e[name]).None? ==> r == Err(BadFloat(e[name]))
  {
    var raw :- Field(e, name);
    match parseFloat(raw)
    case Some(x) => Ok(x)
    case None => Err(BadFloat(raw))
  }

  /** A field parsed with `strconv.ParseInt(raw, 10, 64)`. */
  function IntField(e: Entry, name: string): (r: Result<int, RunError>)
    ensures r.Ok? <==> name in e && ParseInt64(e[name]).Ok?
    ensures r.Ok? ==> r.value == ParseInt64(e[name]).value
    ensures name !in e ==> r == Err(MissingField(name))
    ensures name in e && ParseInt64(e[name]).Err? ==> r == Err(BadInt(e[name], ParseInt64(e[name]).error))
  {
    var raw :- Field(e, name);
    match ParseInt64(raw)
    case Ok(n) => Ok(n)
    case Err(kind) => Err(BadInt(raw, kind))
  }

  /** Only `upstream_response_time` treats the placeholder `-` as zero. */
  predicate DashMeansZero(name: string) {
    name == "upstream_response_time"
  }

  /** `upstream_response_time`: the lookup error is ignored, so an absent
      field reads as the empty value, which is not `-` and then fails in
      `FloatField`; the value `-` itself becomes zero. */
  function UpstreamResponseTime(e: Entry, parseFloat: FloatParser): (r: Result<real, RunError>)
    ensures "upstream_response_time" in e && e["upstream_response_time"] == Dash ==> r == Ok(0.0)
    ensures ("upstream_response_time" !in e || e["upstream_response_time"] != Dash) ==>
              r == FloatField(e, "upstream_response_time", parseFloat)
  {
    var raw := if "upstream_response_time" in e then e["upstream_response_time"] else [];
    if raw != Dash then FloatField(e, "upstream_response_time", parseFloat) else Ok(0.0)
  }

  /** `checkLength`: fails exactly when the value is longer than the limit,
      with an error carrying the line, field, limit and value. */
  function CheckLength(line: int, field: string, value: Bytes, length: int): (r: Option<RunError>)
    ensures r.Some? <==> |value| > length
    ensures r.Some? ==> r.value == ValueTooLong(line, field, length, value)
  {
    if |value| > length then Some(ValueTooLong(line, field, length, value)) else None
  }

  /** `getString`: the raw value verbatim when present and within the limit. */
  function GetString(e: Entry, line: int, field: string, maxLength: int): (r: Result<Bytes, RunError>)
    ensures r.Ok? <==> field in e && |e[field]| <= maxLength
    ensures r.Ok? ==> r.value == e[field]
    ensures field !in e ==> r == Err(MissingField(field))
    ensures field in e && |e[field]| > maxLength ==>
              r == Err(ValueTooLong(line, field, maxLength, e[field]))
  {
    var value :- Field(e, field);
    match CheckLength(line, field, value, maxLength)
    case Some(err) => Err(err)
    case None => Ok(value)
  }

  /** One iteration's validation, in the order the source performs it:
      the two integers, the two floats, then the eight strings. */
  function ValidateEntry(e: Entry, line: int, parseFloat: FloatParser): (r: Result<Row, RunError>)
    ensures r.Ok? ==> r.value.lineNo == line
    ensures r.Err? ==> !r.error.ReadFailed?
  {
    var status :- IntField(e, "status");
    var bodyBytesSent :- IntField(e, "body_bytes_sent");
    var upstreamResponseTime :- UpstreamResponseTime(e, parseFloat);
    var requestTime :- FloatField(e, "request_time", parseFloat);
    var request :- GetString(e, line, "request", RequestLimit);
    var remoteAddr :- GetString(e, line, "remote_addr", ShortLimit);
    var httpXForwardedFor :- GetString(e, line, "http_x_forwarded_for", ShortLimit);
    var host :- GetString(e, line, "host", ShortLimit);
    var remoteUser :- GetString(e, line, "remote_user", ShortLimit);
    var timeLocal :- GetString(e, line, "time_local", ShortLimit);
    var httpReferer :- GetString(e, line, "http_referer", RequestLimit);
    var httpUserAgent :- GetString(e, line, "http_user_agent", RequestLimit);
    Ok(Row(line, request, status, bodyBytesSent, remoteAddr, upstreamResponseTime,
           httpXForwardedFor, host, remoteUser, timeLocal, httpReferer, httpUserAgent,
           requestTime))
  }

  // ---------------------------------------------------------------------
  // Reference meaning of a valid entry, stated against the table schema

  /** The raw value a column draws on; absent fields read as empty. */
  function Raw(e: Entry, name: string): Bytes {
    if name in e then e[name] else []
  }

  /** The entry supplies an acceptable value for the column. */
  predicate ColumnAccepts(e: Entry, parseFloat: FloatParser, col: Column) {
    col.name == LineNo ||
    (col.name in e &&
     match col.sqlType
     case BigInt => ParseInt64(e[col.name]).Ok?
     case VarChar(w) => |e[col.name]| <= w
     case DoublePrecision => (DashMeansZero(col.name) && e[col.name] == Dash) || parseFloat(e[col.name]).Some?)
  }

  /** Every column of the destination table is accepted. */
  predicate EntryValid(e: Entry, parseFloat: FloatParser) {
    forall k :: 0 <= k < |Table| ==> ColumnAccepts(e, parseFloat, Table[k])
  }

  /** The cell the column receives from an accepted entry read at `line`. */
  function Expected(e: Entry, line: int, parseFloat: FloatParser, col: Column): Value {
    if col.name == LineNo then BigIntVal(line)
    else
      var raw := Raw(e, col.name);
      match col.sqlType
      case BigInt => BigIntVal(match ParseInt64(raw) case Ok(n) => n case Err(_) => 0)
      case VarChar(_) => TextVal(raw)
      case DoublePrecision =>
        DoubleVal(if DashMeansZero(col.name) && raw == Dash then 0.0
                  else match parseFloat(raw) case Some(x) => x case None => 0.0)
  }

  lemma TableShape()
    ensures |Table| == 13
    ensures Table[0] == Column(LineNo, BigInt)
    ensures Table[1] == Column("request", VarChar(RequestLimit))
    ensures Table[2] == Column("status", BigInt)
    ensures Table[3] == Column("body_bytes_sent", BigInt)
    ensures Table[4] == Column("remote_addr", VarChar(ShortLimit))
    ensures Table[5] == Column("upstream_response_time", DoublePrecision)
    ensures Table[6] == Column("http_x_forwarded_for", VarChar(ShortLimit))
    ensures Table[7] == Column("host", VarChar(ShortLimit))
    ensures Table[8] == Column("remote_user", VarChar(ShortLimit))
    ensures Table[9] == Column("time_local", VarChar(ShortLimit))
    ensures Table[10] == Column("http_referer", VarChar(RequestLimit))
    ensures Table[11] == Column("http_user_agent", VarChar(RequestLimit))
    ensures Table[12] == Column("request_time", DoublePrecision)
  {
  }

  /** A line is accepted exactly when every column of the table is, and the
      row then holds, column by column, the cell the schema calls for: the
      line number, each string verbatim, each integer parsed, each float
      parsed, with `-` read as zero for `upstream_response_time` only. */
  lemma ValidateEntryCorrect(e: Entry, line: int, parseFloat: FloatParser)
    ensures ValidateEntry(e, line, parseFloat).Ok? <==> EntryValid(e, parseFloat)
    ensures ValidateEntry(e, line, parseFloat).Ok? ==>
              |Values(ValidateEntry(e, line, parseFloat).value)| == |Table| &&
              forall k :: 0 <= k < |Table| ==>
                Values(ValidateEntry(e, line, parseFloat).value)[k] == Expected(e, line, parseFloat, Table[k])
  {
    if EntryValid(e, parseFloat) {
      ValidEntryAccepted(e, line, parseFloat);
    }
    if ValidateEntry(e, line, parseFloat).Ok? {
      AcceptedEntryValid(e, line, parseFloat);
    }
  }

  /** An entry every column accepts passes validation. */
  lemma ValidEntryAccepted(e: Entry, line: int, parseFloat: FloatParser)
    requires EntryValid(e, parseFloat)
    ensures ValidateEntry(e, line, parseFloat).Ok?
  {
    TableShape();
    assert ColumnAccepts(e, parseFloat, Table[1]);
    assert ColumnAccepts(e, parseFloat, Table[2]);
    assert ColumnAccepts(e, parseFloat, Table[3]);
    assert ColumnAccepts(e, parseFloat, Table[4]);
    assert ColumnAccepts(e, parseFloat, Table[5]);
    assert ColumnAccepts(e, parseFloat, Table[6]);
    assert ColumnAccepts(e, parseFloat, Table[7]);
    assert ColumnAccepts(e, parseFloat, Table[8]);
    assert ColumnAccepts(e, parseFloat, Table[9]);
    assert ColumnAccepts(e, parseFloat, Table[10]);
    assert ColumnAccepts(e, parseFloat, Table[11]);
    assert ColumnAccepts(e, parseFloat, Table[12]);
  }

  /** An accepted entry satisfies every column, and its row holds the cells
      the columns call for. */
  lemma AcceptedEntryValid(e: Entry, line: int, parseFloat: FloatParser)
    requires ValidateEntry(e, line, parseFloat).Ok?
    ensures EntryValid(e, parseFloat)
    ensures forall k :: 0 <= k < |Table| ==>
              Values(ValidateEntry(e, line, parseFloat).value)[k] == Expected(e, line, parseFloat, Table[k])
  {
    TableShape();
    var row := ValidateEntry(e, line, parseFloat).value;
    forall k | 0 <= k < |Table|
      ensures ColumnAccepts(e, parseFloat, Table[k])
      ensures Values(row)[k] == Expected(e, line, parseFloat, Table[k])
    {
      assert k == 0 || k == 1 || k == 2 || k == 3 || k == 4 || k == 5 || k == 6 ||
             k == 7 || k == 8 || k == 9 || k == 10 || k == 11 || k == 12;
    }
  }

  /** Every abort names what went wrong: an absent field is a column of the
      table; a string that is too long is reported with the line, the field,
      the column's width as limit, and the value itself; a number that does
      not parse is reported with its raw text. */
  lemma ValidateEntryErrors(e: Entry, line: int, parseFloat: FloatParser)
    ensures var r := ValidateEntry(e, line, parseFloat);
            r.Err? ==>
              match r.error
              case ReadFailed(_) => false
              case MissingField(f) => f !in e && f in CopyColumns
              case BadInt(raw, kind) => ParseInt64(raw) == Err(kind)
              case BadFloat(raw) => parseFloat(raw).None?
              case ValueTooLong(l, f, limit, v) =>
                l == line && f in e && v == e[f] && |v| > limit && Column(f, VarChar(limit)) in Table
  {
    var r := ValidateEntry(e, line, parseFloat);
    if r.Err? {
      TableShape();
      Schema.CopyColumnsMatchTable();
      var status := IntField(e, "status");
      var body := IntField(e, "body_bytes_sent");
      var upstream := UpstreamResponseTime(e, parseFloat);
      var requestTime := FloatField(e, "request_time", parseFloat);
      if status.Err? {
        assert r.error == status.error && CopyColumns[2] == "status";
      } else if body.Err? {
        assert r.error == body.error && CopyColumns[3] == "body_bytes_sent";
      } else if upstream.Err? {
        assert r.error == upstream.error && CopyColumns[5] == "upstream_response_time";
      } else if requestTime.Err? {
        assert r.error == requestTime.error && CopyColumns[12] == "request_time";
      } else {
        StringErrors(e, line, parseFloat);
      }
    }
  }

  /** The string stage of `ValidateEntryErrors`: once the four numbers are
      in, an abort comes from the first string that is absent or too long. */
  lemma StringErrors(e: Entry, line: int, parseFloat: FloatParser)
    requires IntField(e, "status").Ok? && IntField(e, "body_bytes_sent").Ok?
    requires UpstreamResponseTime(e, parseFloat).Ok? && FloatField(e, "request_time", parseFloat).Ok?
    requires ValidateEntry(e, line, parseFloat).Err?
    ensures var err := ValidateEntry(e, line, parseFloat).error;
            (err.MissingField? && err.field !in e && err.field in CopyColumns) ||
            (err.ValueTooLong? && err.line == line && err.field in e && err.value == e[err.field] &&
             |err.value| > err.limit && Column(err.field, VarChar(err.limit)) in Table)
  {
    TableShape();
    Schema.CopyColumnsMatchTable();
    var err := ValidateEntry(e, line, parseFloat).error;
    if GetString(e, line, "request", RequestLimit).Err? {
      assert CopyColumns[1] == "request" && Table[1] == Column("request", VarChar(RequestLimit));
    } else if GetString(e, line, "remote_addr", ShortLimit).Err? {
      assert CopyColumns[4] == "remote_addr" && Table[4] == Column("remote_addr", VarChar(ShortLimit));
    } else if GetString(e, line, "http_x_forwarded_for", ShortLimit).Err? {
      assert CopyColumns[6] == "http_x_forwarded_for";
      assert Table[6] == Column("http_x_forwarded_for", VarChar(ShortLimit));
    } else if GetString(e, line, "host", ShortLimit).Err? {
      assert CopyColumns[7] == "host" && Table[7] == Column("host", VarChar(ShortLimit));
    } else if GetString(e, line, "remote_user", ShortLimit).Err? {
      assert CopyColumns[8] == "remote_user" && Table[8] == Column("remote_user", VarChar(ShortLimit));
    } else if GetString(e, line, "time_local", ShortLimit).Err? {
      assert CopyColumns[9] == "time_local" && Table[9] == Column("time_local", VarChar(ShortLimit));
    } else if GetString(e, line, "http_referer", RequestLimit).Err? {
      assert CopyColumns[10] == "http_referer" && Table[10] == Column("http_referer", VarChar(RequestLimit));
    } else {
      assert CopyColumns[11] == "http_user_agent";
      assert Table[11] == Column("http_user_agent", VarChar(RequestLimit));
    }
  }

  /** A `status` such as "abc" aborts the line with a syntax error whatever
      else the line holds, since `status` is the first value checked. */
  lemma NonNumericStatusAborts(e: Entry, line: int, parseFloat: FloatParser)
    requires "status" in e && e["status"] == Ascii("abc")
    ensures ValidateEntry(e, line, parseFloat) == Err(BadInt(Ascii("abc"), ErrSyntax))
  {
    NonNumericIsSyntaxError();
  }

  /** `upstream_response_time`: the placeholder `-` is stored as zero, any
      other value only when it parses; the line aborts otherwise. */
  lemma UpstreamDashIsZero(e: Entry, line: int, parseFloat: FloatParser)
    requires "upstream_response_time" in e
    ensures e["upstream_response_time"] == Dash && ValidateEntry(e, line, parseFloat).Ok? ==>
              ValidateEntry(e, line, parseFloat).value.upstreamResponseTime == 0.0
    ensures e["upstream_response_time"] != Dash && ValidateEntry(e, line, parseFloat).Ok? ==>
              parseFloat(e["upstream_response_time"]) ==
              Some(ValidateEntry(e, line, parseFloat).value.upstreamResponseTime)
    ensures e["upstream_response_time"] != Dash && parseFloat(e["upstream_response_time"]).None? ==>
              ValidateEntry(e, line, parseFloat).Err?
  {
    TableShape();
    ValidateEntryCorrect(e, line, parseFloat);
    if ValidateEntry(e, line, parseFloat).Ok? {
      assert Values(ValidateEntry(e, line, parseFloat).value)[5] == Expected(e, line, parseFloat, Table[5]);
    }
    if e["upstream_response_time"] != Dash && parseFloat(e["upstream_response_time"]).None? {
      assert !ColumnAccepts(e, parseFloat, Table[5]);
    }
  }

  /** `request_time` has no such exception: `-` is accepted only if the float
      parser accepts it (Go's does not), and the line aborts otherwise. */
  lemma RequestTimeDashRejected(e: Entry, line: int, parseFloat: FloatParser)
    requires "request_time" in e && e["request_time"] == Dash
    requires parseFloat(Dash).None?
    ensures ValidateEntry(e, line, parseFloat).Err?
  {
    TableShape();
    ValidateEntryCorrect(e, line, parseFloat);
    assert !ColumnAccepts(e, parseFloat, Table[12]);
  }

  /** A validated row can be stored: each cell has its column's type, each
      string fits its column's width, and each integer is a BIGINT, provided
      the line number is one. */
  lemma ValidRowFitsTable(e: Entry, line: int, parseFloat: FloatParser)
    requires ValidateEntry(e, line, parseFloat).Ok?
    requires MinInt64 <= line <= MaxInt64
    ensures var row := ValidateEntry(e, line, parseFloat).value;
            forall k :: 0 <= k < |Table| ==> Fits(Values(row)[k], Table[k].sqlType)
  {
    TableShape();
    ValidateEntryCorrect(e, line, parseFloat);
    var row := ValidateEntry(e, line, parseFloat).value;
    forall k | 0 <= k < |Table|
      ensures Fits(Values(row)[k], Table[k].sqlType)
    {
      assert ColumnAccepts(e, parseFloat, Table[k]);
      assert Values(row)[k] == Expected(e, line, parseFloat, Table[k]);
    }
  }
}
