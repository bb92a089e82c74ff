/** The read loop of `main`: entries are read one by one, each validated
    into a row and appended to the batch, until end of input, the optional
    line cutoff, or the first error, which aborts the run before the
    database is contacted. */
module Batch {
  import opened Wrappers
  import opened ByteStrings
  import opened Strconv
  import opened Schema
  import opened Fields

  /** What one `reader.Read()` call yields. */
  datatype ReadResult = Line(entry: Entry) | ParseFailed(reason: string) | Eof

  /** The reader's k-th answer (0-based); past its last item it answers EOF. */
  function ReadAt(src: seq<ReadResult>, k: nat): ReadResult {
    if k < |src| then src[k] else Eof
  }

  /** The loop stops after appending the row of line `i`. */
  predicate CutoffReached(maxlineCount: int, i: int) {
    maxlineCount > 0 && i >= maxlineCount
  }

  /** The run from the reader's k-th answer on, `rows` already appended;
      the line counter is `k + 1` for that answer. */
  function IngestFrom(src: seq<ReadResult>, k: nat, rows: seq<Row>, maxlineCount: int,
                      parseFloat: FloatParser): (r: Result<seq<Row>, RunError>)
    ensures r.Ok? ==> |rows| <= |r.value| && r.value[..|rows|] == rows
    ensures r.Ok? && k <= |src| ==> |r.value| <= |rows| + (|src| - k)
    decreases |src| - k
  {
    if k >= |src| then Ok(rows)
    else
      match src[k]
      case Eof => Ok(rows)
      case ParseFailed(reason) => Err(ReadFailed(reason))
      case Line(e) =>
        var row :- ValidateEntry(e, k + 1, parseFloat);
        if CutoffReached(maxlineCount, k + 1) then Ok(rows + [row])
        else
          var rest := IngestFrom(src, k + 1, rows + [row], maxlineCount, parseFloat);
          assert (rows + [row])[..|rows|] == rows;
          assert rest.Ok? ==> rest.value[..|rows|] == rest.value[..|rows| + 1][..|rows|];
          rest
  }

  /** The whole read phase: the batch, or the error that aborts the run. */
  function Ingest(src: seq<ReadResult>, maxlineCount: int, parseFloat: FloatParser): (r: Result<seq<Row>, RunError>)
    ensures r.Ok? ==> |r.value| <= |src|
  {
    IngestFrom(src, 0, [], maxlineCount, parseFloat)
  }

  /** The loop itself: `i` counts reads, `rows` grows by one row per line. */
  method ReadLog(src: seq<ReadResult>, maxlineCount: int, parseFloat: FloatParser)
    returns (r: Result<seq<Row>, RunError>)
    ensures r == Ingest(src, maxlineCount, parseFloat)
  {
    var rows: seq<Row> := [];
    var i := 0;
    while true
      invariant 0 <= i <= |src|
      invariant Ingest(src, maxlineCount, parseFloat) == IngestFrom(src, i, rows, maxlineCount, parseFloat)
      decreases |src| - i
    {
      i := i + 1;
      var item := ReadAt(src, i - 1);
      if item.Eof? {
        return Ok(rows);
      }
      if item.ParseFailed? {
        return Err(ReadFailed(item.reason));
      }
      var row := ValidateEntry(item.entry, i, parseFloat);
      if row.Err? {
        return Err(row.error);
      }
      rows := rows + [row.value];
      if CutoffReached(maxlineCount, i) {
        return Ok(rows);
      }
    }
  }

  // ---------------------------------------------------------------------
  // Reference description of the read phase

  /** How many matched lines the input starts with. */
  function LeadingLines(src: seq<ReadResult>): (n: nat)
    ensures n <= |src|
    ensures forall j :: 0 <= j < n ==> src[j].Line?
    ensures !ReadAt(src, n).Line?
  {
    if src == [] || !src[0].Line? then 0
    else
      var n := 1 + LeadingLines(src[1..]);
      assert forall j :: 1 <= j < n ==> src[j] == src[1..][j - 1];
      n
  }

  function Min(a: int, b: int): int {
    if a <= b then a else b
  }

  /** How many lines the loop reads before it stops: all leading lines, or
      only `maxlineCount` of them when a positive cutoff is set. */
  function Consumed(src: seq<ReadResult>, maxlineCount: int): nat {
    if maxlineCount > 0 then Min(LeadingLines(src), maxlineCount) else LeadingLines(src)
  }

  /** The loop stops without error: at the cutoff, or on EOF after the last
      leading line (not on a line the reader could not match). */
  predicate StopsCleanly(src: seq<ReadResult>, maxlineCount: int) {
    (maxlineCount > 0 && maxlineCount <= LeadingLines(src)) || ReadAt(src, LeadingLines(src)).Eof?
  }

  /** What holds of the run from answer k on, `rows` already appended: it
      succeeds exactly when it stops cleanly and every line from k up to the
      last one read validates, and it then keeps `rows` and appends one row
      per further line read, that line validated under its line number. */
  predicate RunFromExplained(src: seq<ReadResult>, k: nat, rows: seq<Row>,
                             maxlineCount: int, parseFloat: FloatParser)
    requires k == |rows|
  {
    var out := IngestFrom(src, k, rows, maxlineCount, parseFloat);
    (out.Ok? <==>
       StopsCleanly(src, maxlineCount) &&
       forall j :: k <= j < Consumed(src, maxlineCount) ==>
         ValidateEntry(src[j].entry, j + 1, parseFloat).Ok?) &&
    (out.Ok? ==>
       |out.value| == Consumed(src, maxlineCount) && out.value[..k] == rows &&
       forall j :: k <= j < |out.value| ==> ValidateEntry(src[j].entry, j + 1, parseFloat) == Ok(out.value[j]))
  }

  lemma {:induction false} IngestFromCorrect(src: seq<ReadResult>, k: nat, rows: seq<Row>,
                                             maxlineCount: int, parseFloat: FloatParser)
    requires k == |rows| && k <= LeadingLines(src)
    requires maxlineCount <= 0 || k < maxlineCount
    ensures IngestFrom(src, k, rows, maxlineCount, parseFloat).Ok? <==>
              StopsCleanly(src, maxlineCount) &&
              forall j :: k <= j < Consumed(src, maxlineCount) ==>
                ValidateEntry(src[j].entry, j + 1, parseFloat).Ok?
    ensures IngestFrom(src, k, rows, maxlineCount, parseFloat).Ok? ==>
              var out := IngestFrom(src, k, rows, maxlineCount, parseFloat).value;
              |out| == Consumed(src, maxlineCount) && out[..k] == rows &&
              forall j :: k <= j < |out| ==> ValidateEntry(src[j].entry, j + 1, parseFloat) == Ok(out[j])
    decreases |src| - k
  {
    IngestFromExplained(src, k, rows, maxlineCount, parseFloat);
  }

  lemma {:induction false} IngestFromExplained(src: seq<ReadResult>, k: nat, rows: seq<Row>,
                                               maxlineCount: int, parseFloat: FloatParser)
    requires k == |rows| && k <= LeadingLines(src)
    requires maxlineCount <= 0 || k < maxlineCount
    ensures RunFromExplained(src, k, rows, maxlineCount, parseFloat)
    decreases |src| - k
  {
    if k == LeadingLines(src) {
      IngestFromAtStop(src, k, rows, maxlineCount, parseFloat);
    } else {
      var v := ValidateEntry(src[k].entry, k + 1, parseFloat);
      if v.Err? {
        IngestFromInvalidLine(src, k, rows, maxlineCount, parseFloat);
      } else if CutoffReached(maxlineCount, k + 1) {
        IngestFromCutoffLine(src, k, rows, maxlineCount, parseFloat);
      } else {
        IngestFromExplained(src, k + 1, rows + [v.value], maxlineCount, parseFloat);
        IngestFromStep(src, k, rows, maxlineCount, parseFloat);
      }
    }
  }

  /** No leading line is left: the run ends here, cleanly exactly when the
      reader answers EOF. */
  lemma IngestFromAtStop(src: seq<ReadResult>, k: nat, rows: seq<Row>,
                         maxlineCount: int, parseFloat: FloatParser)
    requires k == |rows| && k == LeadingLines(src)
    requires maxlineCount <= 0 || k < maxlineCount
    ensures RunFromExplained(src, k, rows, maxlineCount, parseFloat)
  {
    assert Consumed(src, maxlineCount) == k;
    if ReadAt(src, k).Eof? {
      assert IngestFrom(src, k, rows, maxlineCount, parseFloat) == Ok(rows);
      assert rows[..k] == rows;
    } else {
      assert !StopsCleanly(src, maxlineCount);
    }
  }

  /** The line at k fails validation: the run aborts with its error. */
  lemma IngestFromInvalidLine(src: seq<ReadResult>, k: nat, rows: seq<Row>,
                              maxlineCount: int, parseFloat: FloatParser)
    requires k == |rows| && k < LeadingLines(src)
    requires maxlineCount <= 0 || k < maxlineCount
    requires ValidateEntry(src[k].entry, k + 1, parseFloat).Err?
    ensures RunFromExplained(src, k, rows, maxlineCount, parseFloat)
  {
    var v := ValidateEntry(src[k].entry, k + 1, parseFloat);
    assert ReadAt(src, k) == src[k];
    assert IngestFrom(src, k, rows, maxlineCount, parseFloat) == Err(v.error);
    assert k < Consumed(src, maxlineCount);
    assert !(forall j :: k <= j < Consumed(src, maxlineCount) ==>
               ValidateEntry(src[j].entry, j + 1, parseFloat).Ok?);
  }

  /** The line at k validates and reaches the cutoff: the run ends with it. */
  lemma IngestFromCutoffLine(src: seq<ReadResult>, k: nat, rows: seq<Row>,
                             maxlineCount: int, parseFloat: FloatParser)
    requires k == |rows| && k < LeadingLines(src)
    requires maxlineCount <= 0 || k < maxlineCount
    requires ValidateEntry(src[k].entry, k + 1, parseFloat).Ok? && CutoffReached(maxlineCount, k + 1)
    ensures RunFromExplained(src, k, rows, maxlineCount, parseFloat)
  {
    var v := ValidateEntry(src[k].entry, k + 1, parseFloat);
    assert IngestFrom(src, k, rows, maxlineCount, parseFloat) == Ok(rows + [v.value]);
    assert Consumed(src, maxlineCount) == k + 1 && StopsCleanly(src, maxlineCount);
    var out := rows + [v.value];
    assert out[..k] == rows && out[k] == v.value;
    forall j | k <= j < |out|
      ensures ValidateEntry(src[j].entry, j + 1, parseFloat) == Ok(out[j])
    {
      assert j == k;
    }
  }

  /** The line at k validates and the loop goes on: what holds from k + 1
      carries back to k. */
  lemma IngestFromStep(src: seq<ReadResult>, k: nat, rows: seq<Row>,
                       maxlineCount: int, parseFloat: FloatParser)
    requires k == |rows| && k < LeadingLines(src)
    requires maxlineCount <= 0 || k < maxlineCount
    requires ValidateEntry(src[k].entry, k + 1, parseFloat).Ok? && !CutoffReached(maxlineCount, k + 1)
    requires RunFromExplained(src, k + 1, rows + [ValidateEntry(src[k].entry, k + 1, parseFloat).value],
                              maxlineCount, parseFloat)
    ensures RunFromExplained(src, k, rows, maxlineCount, parseFloat)
  {
    var c := Consumed(src, maxlineCount);
    var v := ValidateEntry(src[k].entry, k + 1, parseFloat);
    var out := IngestFrom(src, k, rows, maxlineCount, parseFloat);
    assert k < c;
    assert out == IngestFrom(src, k + 1, rows + [v.value], maxlineCount, parseFloat);
    if out.Ok? {
      assert out.value[..k + 1][..k] == out.value[..k];
      forall j | k <= j < |out.value|
        ensures ValidateEntry(src[j].entry, j + 1, parseFloat) == Ok(out.value[j])
      {
        if j == k {
          assert out.value[..k + 1][k] == out.value[k];
        }
      }
    } else if StopsCleanly(src, maxlineCount) {
      assert !(forall j :: k + 1 <= j < c ==> ValidateEntry(src[j].entry, j + 1, parseFloat).Ok?);
    }
  }

  /** The read phase succeeds exactly when it stops cleanly and every line it
      reads validates; the batch then holds one row per line read, the j-th
      row being line j+1 validated with line number j+1. */
  lemma IngestCorrect(src: seq<ReadResult>, maxlineCount: int, parseFloat: FloatParser)
    ensures Ingest(src, maxlineCount, parseFloat).Ok? <==>
              StopsCleanly(src, maxlineCount) &&
              forall j :: 0 <= j < Consumed(src, maxlineCount) ==>
                ValidateEntry(src[j].entry, j + 1, parseFloat).Ok?
    ensures Ingest(src, maxlineCount, parseFloat).Ok? ==>
              var rows := Ingest(src, maxlineCount, parseFloat).value;
              |rows| == Consumed(src, maxlineCount) &&
              forall j :: 0 <= j < |rows| ==>
                src[j].Line? && ValidateEntry(src[j].entry, j + 1, parseFloat) == Ok(rows[j])
  {
    IngestFromCorrect(src, 0, [], maxlineCount, parseFloat);
  }

  /** Line numbers start at 1 and rise by exactly one per row, and every row
      satisfies the table schema column by column. */
  lemma RowsNumberedFromOne(src: seq<ReadResult>, maxlineCount: int, parseFloat: FloatParser)
    requires Ingest(src, maxlineCount, parseFloat).Ok?
    ensures forall j :: 0 <= j < |Ingest(src, maxlineCount, parseFloat).value| ==>
              Ingest(src, maxlineCount, parseFloat).value[j].lineNo == j + 1
  {
    IngestCorrect(src, maxlineCount, parseFloat);
    var rows := Ingest(src, maxlineCount, parseFloat).value;
    forall j | 0 <= j < |rows|
      ensures rows[j].lineNo == j + 1
    {
      ValidateEntryCorrect(src[j].entry, j + 1, parseFloat);
      TableShape();
      assert Values(rows[j])[0] == Expected(src[j].entry, j + 1, parseFloat, Table[0]);
    }
  }

  /** With n leading lines, a successful run holds min(n, maxlineCount) rows
      under a positive cutoff and all n rows otherwise. */
  lemma RowCount(src: seq<ReadResult>, maxlineCount: int, parseFloat: FloatParser)
    requires Ingest(src, maxlineCount, parseFloat).Ok?
    ensures maxlineCount > 0 ==>
              |Ingest(src, maxlineCount, parseFloat).value| == Min(LeadingLines(src), maxlineCount)
    ensures maxlineCount <= 0 ==>
              |Ingest(src, maxlineCount, parseFloat).value| == LeadingLines(src)
  {
    IngestCorrect(src, maxlineCount, parseFloat);
  }

  /** Fail fast: any line the loop reaches that does not validate aborts the
      whole run, so no batch is produced and nothing is loaded. */
  lemma InvalidLineAborts(src: seq<ReadResult>, maxlineCount: int, parseFloat: FloatParser, j: nat)
    requires j < Consumed(src, maxlineCount)
    requires !ValidateEntry(src[j].entry, j + 1, parseFloat).Ok?
    ensures Ingest(src, maxlineCount, parseFloat).Err?
  {
    IngestCorrect(src, maxlineCount, parseFloat);
  }

  lemma {:induction false} CutoffPrefix(src: seq<ReadResult>, k: nat, rows: seq<Row>,
                                        maxlineCount: int, parseFloat: FloatParser)
    requires 0 < maxlineCount <= |src| && k < maxlineCount
    ensures IngestFrom(src, k, rows, maxlineCount, parseFloat) ==
            IngestFrom(src[..maxlineCount], k, rows, maxlineCount, parseFloat)
    decreases |src| - k
  {
    var head := src[..maxlineCount];
    assert head[k] == src[k];
    if src[k].Line? {
      var v := ValidateEntry(src[k].entry, k + 1, parseFloat);
      if v.Err? {
        assert IngestFrom(src, k, rows, maxlineCount, parseFloat) == Err(v.error);
        assert IngestFrom(head, k, rows, maxlineCount, parseFloat) == Err(v.error);
      } else if CutoffReached(maxlineCount, k + 1) {
        assert IngestFrom(src, k, rows, maxlineCount, parseFloat) == Ok(rows + [v.value]);
        assert IngestFrom(head, k, rows, maxlineCount, parseFloat) == Ok(rows + [v.value]);
      } else {
        CutoffPrefix(src, k + 1, rows + [v.value], maxlineCount, parseFloat);
        assert IngestFrom(src, k, rows, maxlineCount, parseFloat) ==
               IngestFrom(src, k + 1, rows + [v.value], maxlineCount, parseFloat);
        assert IngestFrom(head, k, rows, maxlineCount, parseFloat) ==
               IngestFrom(head, k + 1, rows + [v.value], maxlineCount, parseFloat);
      }
    }
  }

  /** With a positive cutoff the reader is never asked for more than
      `maxlineCount` items: whatever follows them cannot change the outcome. */
  lemma CutoffIgnoresRest(src: seq<ReadResult>, maxlineCount: int, parseFloat: FloatParser)
    requires 0 < maxlineCount <= |src|
    ensures Ingest(src, maxlineCount, parseFloat) == Ingest(src[..maxlineCount], maxlineCount, parseFloat)
  {
    CutoffPrefix(src, 0, [], maxlineCount, parseFloat);
  }

  /** Every row of a successful batch can be stored in the table as is. */
  lemma BatchFitsTable(src: seq<ReadResult>, maxlineCount: int, parseFloat: FloatParser)
    requires Ingest(src, maxlineCount, parseFloat).Ok?
    requires |src| <= MaxInt64
    ensures var rows := Ingest(src, maxlineCount, parseFloat).value;
            forall j, k :: 0 <= j < |rows| && 0 <= k < |Table| ==> Fits(Values(rows[j])[k], Table[k].sqlType)
  {
    IngestCorrect(src, maxlineCount, parseFloat);
    var rows := Ingest(src, maxlineCount, parseFloat).value;
    forall j | 0 <= j < |rows|
      ensures forall k :: 0 <= k < |Table| ==> Fits(Values(rows[j])[k], Table[k].sqlType)
    {
      assert ValidateEntry(src[j].entry, j + 1, parseFloat) == Ok(rows[j]);
      ValidRowFitsTable(src[j].entry, j + 1, parseFloat);
    }
  }

  /** A line the loop reaches whose `status` is "abc" aborts the run, so the
      database connection that follows the loop is never attempted. */
  lemma NonNumericStatusStopsRun(src: seq<ReadResult>, maxlineCount: int, parseFloat: FloatParser, j: nat)
    requires j < Consumed(src, maxlineCount)
    requires "status" in src[j].entry && src[j].entry["status"] == Ascii("abc")
    ensures Ingest(src, maxlineCount, parseFloat).Err?
  {
    NonNumericStatusAborts(src[j].entry, j + 1, parseFloat);
    InvalidLineAborts(src, maxlineCount, parseFloat, j);
  }
}
