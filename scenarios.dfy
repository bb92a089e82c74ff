/** Concrete runs of the read phase on small inputs. */
module Scenarios {
  import opened Wrappers
  import opened ByteStrings
  import opened Fields
  import opened Batch
  import opened Strconv
  import opened Schema

  /** A line with the given status, body size and upstream time, every
      other field holding the placeholder "-" and a request time of "0.010". */
  function Sample(status: Bytes, bodyBytesSent: Bytes, upstream: Bytes): Entry {
    map[
      "http_x_forwarded_for" := Dash,
      "host" := Dash,
      "remote_user" := Dash,
      "time_local" := Dash,
      "request" := Dash,
      "status" := status,
      "body_bytes_sent" := bodyBytesSent,
      "http_referer" := Dash,
      "http_user_agent" := Dash,
      "remote_addr" := Dash,
      "request_time" := RequestTime,
      "upstream_response_time" := upstream
    ]
  }

  // The raw texts used below, byte by byte.
  const RequestTime: Bytes := [48, 46, 48, 49, 48]  // "0.010"
  const S200: Bytes := [50, 48, 48]  // "200"
  const S404: Bytes := [52, 48, 52]  // "404"
  const S500: Bytes := [53, 48, 48]  // "500"
  const B512: Bytes := [53, 49, 50]  // "512"
  const B0: Bytes := [48]  // "0"
  const B100: Bytes := [49, 48, 48]  // "100"
  const U0125: Bytes := [48, 46, 49, 50, 53]  // "0.125"

  function ThreeLines(): seq<ReadResult> {
    [Line(Sample(S200, B512, Dash)),
     Line(Sample(S404, B0, Dash)),
     Line(Sample(S500, B100, U0125))]
  }

  /** Three lines with statuses 200, 404, 500, body sizes 512, 0, 100 and
      upstream times "-", "-", "0.125" give three rows numbered 1 to 3 whose
      upstream times are 0, 0 and 0.125. */
  lemma ThreeLineRun(parseFloat: FloatParser)
    requires parseFloat(U0125) == Some(0.125)
    requires parseFloat(RequestTime).Some?
    ensures var r := Ingest(ThreeLines(), 0, parseFloat);
            r.Ok? && |r.value| == 3 &&
            r.value[0].lineNo == 1 && r.value[1].lineNo == 2 && r.value[2].lineNo == 3 &&
            r.value[0].status == 200 && r.value[1].status == 404 && r.value[2].status == 500 &&
            r.value[0].bodyBytesSent == 512 && r.value[1].bodyBytesSent == 0 && r.value[2].bodyBytesSent == 100 &&
            r.value[0].upstreamResponseTime == 0.0 && r.value[1].upstreamResponseTime == 0.0 &&
            r.value[2].upstreamResponseTime == 0.125
  {
    var src := ThreeLines();
    ThreeLinesValidate(parseFloat);
    ThreeLinesStop();
    IngestCorrect(src, 0, parseFloat);
  }

  lemma ThreeLinesValidate(parseFloat: FloatParser)
    requires parseFloat(U0125) == Some(0.125)
    requires parseFloat(RequestTime).Some?
    ensures var src := ThreeLines();
            var v1, v2, v3 := ValidateEntry(src[0].entry, 1, parseFloat), ValidateEntry(src[1].entry, 2, parseFloat),
                              ValidateEntry(src[2].entry, 3, parseFloat);
            v1.Ok? && v2.Ok? && v3.Ok? &&
            v1.value.lineNo == 1 && v2.value.lineNo == 2 && v3.value.lineNo == 3 &&
            v1.value.status == 200 && v2.value.status == 404 && v3.value.status == 500 &&
            v1.value.bodyBytesSent == 512 && v2.value.bodyBytesSent == 0 && v3.value.bodyBytesSent == 100 &&
            v1.value.upstreamResponseTime == 0.0 && v2.value.upstreamResponseTime == 0.0 &&
            v3.value.upstreamResponseTime == 0.125
  {
    var src := ThreeLines();
    assert src[0].entry == Sample(S200, B512, Dash);
    assert src[1].entry == Sample(S404, B0, Dash);
    assert src[2].entry == Sample(S500, B100, U0125);
    SampleNumbers();
    SampleRow(S200, B512, Dash, 1, parseFloat, 200, 512, 0.0);
    SampleRow(S404, B0, Dash, 2, parseFloat, 404, 0, 0.0);
    SampleRow(S500, B100, U0125, 3, parseFloat, 500, 100, 0.125);
  }

  lemma ThreeLinesStop()
    ensures LeadingLines(ThreeLines()) == 3 && Consumed(ThreeLines(), 0) == 3
    ensures StopsCleanly(ThreeLines(), 0)
  {
    var src := ThreeLines();
    assert ReadAt(src, 0).Line? && ReadAt(src, 1).Line? && ReadAt(src, 2).Line?;
  }

  function FiveLines(): seq<ReadResult> {
    ThreeLines() + ThreeLines()[..2]
  }

  /** With a cutoff of 2, a five-line input gives exactly two rows, and the
      outcome is the same as if only its first two lines existed. */
  lemma CutoffTwoOfFive(parseFloat: FloatParser)
    requires parseFloat(RequestTime).Some?
    ensures var r := Ingest(FiveLines(), 2, parseFloat);
            r.Ok? && |r.value| == 2 && r.value[0].lineNo == 1 && r.value[1].lineNo == 2 &&
            r == Ingest(FiveLines()[..2], 2, parseFloat)
  {
    var src := FiveLines();
    SampleNumbers();
    SampleRow(S200, B512, Dash, 1, parseFloat, 200, 512, 0.0);
    SampleRow(S404, B0, Dash, 2, parseFloat, 404, 0, 0.0);
    IngestCorrect(src, 2, parseFloat);
    assert ReadAt(src, 0).Line? && ReadAt(src, 1).Line?;
    assert LeadingLines(src) >= 2;
    CutoffIgnoresRest(src, 2, parseFloat);
  }

  /** A sample line validates into a row carrying its parsed status and
      body size and its upstream time, zero for "-". */
  lemma SampleRow(status: Bytes, bodyBytesSent: Bytes, upstream: Bytes, line: int,
                  parseFloat: FloatParser, n: int, b: int, u: real)
    requires ParseInt64(status) == Ok(n) && ParseInt64(bodyBytesSent) == Ok(b)
    requires if upstream == Dash then u == 0.0 else parseFloat(upstream) == Some(u)
    requires parseFloat(RequestTime).Some?
    ensures var r := ValidateEntry(Sample(status, bodyBytesSent, upstream), line, parseFloat);
            r.Ok? && r.value.lineNo == line && r.value.status == n && r.value.bodyBytesSent == b &&
            r.value.upstreamResponseTime == u
  {
    SampleNumberFields(status, bodyBytesSent, upstream, parseFloat, n, b, u);
    SampleStringFields(status, bodyBytesSent, upstream, line);
  }

  /** The four numeric fields of a sample line, one step at a time. */
  lemma SampleNumberFields(status: Bytes, bodyBytesSent: Bytes, upstream: Bytes,
                           parseFloat: FloatParser, n: int, b: int, u: real)
    requires ParseInt64(status) == Ok(n) && ParseInt64(bodyBytesSent) == Ok(b)
    requires if upstream == Dash then u == 0.0 else parseFloat(upstream) == Some(u)
    requires parseFloat(RequestTime).Some?
    ensures var e := Sample(status, bodyBytesSent, upstream);
            IntField(e, "status") == Ok(n) && IntField(e, "body_bytes_sent") == Ok(b) &&
            UpstreamResponseTime(e, parseFloat) == Ok(u) && FloatField(e, "request_time", parseFloat).Ok?
  {
  }

  /** The eight string fields of a sample line are "-", within every limit. */
  lemma SampleStringFields(status: Bytes, bodyBytesSent: Bytes, upstream: Bytes, line: int)
    ensures var e := Sample(status, bodyBytesSent, upstream);
            GetString(e, line, "request", RequestLimit) == Ok(Dash) &&
            GetString(e, line, "remote_addr", ShortLimit) == Ok(Dash) &&
            GetString(e, line, "http_x_forwarded_for", ShortLimit) == Ok(Dash) &&
            GetString(e, line, "host", ShortLimit) == Ok(Dash) &&
            GetString(e, line, "remote_user", ShortLimit) == Ok(Dash) &&
            GetString(e, line, "time_local", ShortLimit) == Ok(Dash) &&
            GetString(e, line, "http_referer", RequestLimit) == Ok(Dash) &&
            GetString(e, line, "http_user_agent", RequestLimit) == Ok(Dash)
  {
  }

  lemma SampleNumbers()
    ensures ParseInt64(S200) == Ok(200)
    ensures ParseInt64(S404) == Ok(404)
    ensures ParseInt64(S500) == Ok(500)
    ensures ParseInt64(B512) == Ok(512)
    ensures ParseInt64(B0) == Ok(0)
    ensures ParseInt64(B100) == Ok(100)
  {
  }
}
