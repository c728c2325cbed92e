/** `ReadRecords`: reading a CSV file row by row and sending each record to an output channel. */
module Ingestion {
  import opened Errors
  import opened Records

  /** What one call of the CSV reader's `Read` gives: a row of columns, or a fault. Reaching the
      end of the sequence stands for the reader returning `io.EOF`. */
  datatype ReadStep = Row(columns: seq<string>) | Fault(reason: string)

  /** The channel records are sent on; `sent` is everything sent so far, in order. */
  class Sink {
    var sent: seq<Record>

    constructor ()
      ensures sent == []
    {
      sent := [];
    }

    method Send(r: Record)
      modifies this
      ensures sent == old(sent) + [r]
    {
      sent := sent + [r];
    }
  }

  /** How a read of a whole file ends: the count returned, the error returned and the records
      sent before it stopped. */
  datatype Stop = Stop(count: nat, err: GeoError, emitted: seq<Record>)

  /** The outcome of reading `rows` from row `n` on. */
  function ReadFrom(rows: seq<ReadStep>, filename: string, n: nat): Stop
    requires n <= |rows|
    decreases |rows| - n
  {
    if n == |rows| then Stop(n, EndOfInput, [])
    else match rows[n]
      case Fault(reason) => Stop(n, ReadFault(reason), [])
      case Row(columns) =>
        match RowToRecord(columns, filename, n)
        case Err(e) => Stop(n, e, [])
        case Ok(r) =>
          var rest := ReadFrom(rows, filename, n + 1);
          Stop(rest.count, rest.err, [r] + rest.emitted)
  }

  /** Reading stops at the first row that cannot be read or converted (or at the end); every
      row before it gave exactly one record, in row order, converted with its own 0-based index;
      the count is the number of records sent; the row that stopped it gave none. */
  lemma {:induction false} ReadFromStopsAtFirstError(rows: seq<ReadStep>, filename: string, n: nat)
    requires n <= |rows|
    ensures var s := ReadFrom(rows, filename, n);
      && n <= s.count <= |rows|
      && |s.emitted| == s.count - n
      && (forall i :: n <= i < s.count ==>
            rows[i].Row? && RowToRecord(rows[i].columns, filename, i) == Ok(s.emitted[i - n]))
      && (s.count == |rows| ==> s.err == EndOfInput)
      && (s.count < |rows| ==>
            match rows[s.count]
            case Fault(reason) => s.err == ReadFault(reason)
            case Row(columns) => RowToRecord(columns, filename, s.count) == Err(s.err))
    decreases |rows| - n
  {
    if n < |rows| && rows[n].Row? && RowToRecord(rows[n].columns, filename, n).Ok? {
      ReadFromStopsAtFirstError(rows, filename, n + 1);
    }
  }

  /** One step of `ReadFrom`, spelled out for the loop of `ReadRecords`. */
  lemma ReadFromStep(rows: seq<ReadStep>, filename: string, n: nat)
    requires n < |rows|
    ensures rows[n].Fault? ==> ReadFrom(rows, filename, n) == Stop(n, ReadFault(rows[n].reason), [])
    ensures rows[n].Row? && RowToRecord(rows[n].columns, filename, n).Err? ==>
      ReadFrom(rows, filename, n) == Stop(n, RowToRecord(rows[n].columns, filename, n).error, [])
    ensures rows[n].Row? && RowToRecord(rows[n].columns, filename, n).Ok? ==>
      var rest := ReadFrom(rows, filename, n + 1);
      ReadFrom(rows, filename, n)
        == Stop(rest.count, rest.err, [RowToRecord(rows[n].columns, filename, n).value] + rest.emitted)
  {
  }

  /** `ReadRecords` with the loop written as evidently intended: read a row, stop on a read
      error, convert it, stop on a conversion error, send the record, count it. */
  method ReadRecords(rows: seq<ReadStep>, filename: string, output: Sink) returns (n: nat, err: GeoError)
    modifies output
    ensures var s := ReadFrom(rows, filename, 0);
      n == s.count && err == s.err && output.sent == old(output.sent) + s.emitted
  {
    n := 0;
    ghost var done: seq<Record> := [];
    while n < |rows|
      invariant n <= |rows|
      invariant output.sent == old(output.sent) + done
      invariant var s := ReadFrom(rows, filename, n);
        ReadFrom(rows, filename, 0) == Stop(s.count, s.err, done + s.emitted)
      decreases |rows| - n
    {
      ReadFromStep(rows, filename, n);
      match rows[n]
      case Fault(reason) =>
        assert done + [] == done;
        return n, ReadFault(reason);
      case Row(columns) =>
        var record := NewRecord(columns, filename, n);
        if record.Err? {
          assert done + [] == done;
          return n, record.error;
        }
        output.Send(record.value);
        ghost var rest := ReadFrom(rows, filename, n + 1);
        assert done + ([record.value] + rest.emitted) == (done + [record.value]) + rest.emitted;
        done := done + [record.value];
        n := n + 1;
    }
    assert done + [] == done;
    return n, EndOfInput;
  }
}
