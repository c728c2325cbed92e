/** `Record` and `NewRecord`: turning one CSV row into an address record. */
module Records {
  import opened Errors
  import opened Strings

  /** Where an address came from and what it says. */
  datatype Record = Record(source: string, id: string, sensor: bool, address: string)

  /** The sensor column as `NewRecord` reads it: "1" or any casing of "true" is true; otherwise
      "0" or any casing of "false" is false; anything else is refused. */
  function ParseSensor(flag: string): Option<bool>
  {
    if flag == "1" || ToLower(flag) == "true" then Some(true)
    else if flag != "0" && ToLower(flag) != "false" then None
    else Some(false)
  }

  /** The spellings accepted for true and for false, stated without lower-casing. */
  ghost predicate TrueSpelling(flag: string)
  {
    flag == "1" || CaseVariant(flag, "true")
  }

  ghost predicate FalseSpelling(flag: string)
  {
    flag == "0" || CaseVariant(flag, "false")
  }

  lemma SensorSpellings(flag: string)
    ensures ParseSensor(flag) == Some(true) <==> TrueSpelling(flag)
    ensures ParseSensor(flag) == Some(false) <==> FalseSpelling(flag)
    ensures ParseSensor(flag) == None <==> !TrueSpelling(flag) && !FalseSpelling(flag)
  {
    assert LowerWord("true") && LowerWord("false");
    LowerMatches(flag, "true");
    LowerMatches(flag, "false");
  }

  /** The columns joined in order with no separator, built the way `record.Address += col` builds
      it: each column appended to what the earlier columns gave. */
  function Concat(cols: seq<string>): string
  {
    if cols == [] then "" else Concat(cols[..|cols| - 1]) + cols[|cols| - 1]
  }

  lemma {:induction false} ConcatAppend(a: seq<string>, b: seq<string>)
    ensures Concat(a + b) == Concat(a) + Concat(b)
    decreases |b|
  {
    if b == [] {
      assert a + b == a;
    } else {
      var front, last := b[..|b| - 1], b[|b| - 1];
      assert (a + b)[..|a + b| - 1] == a + front;
      assert (a + b)[|a + b| - 1] == last;
      assert Concat(a + b) == Concat(a + front) + last;
      assert Concat(b) == Concat(front) + last;
      ConcatAppend(a, front);
    }
  }

  /** Column `i` appears whole in the address, right after the columns before it and right
      before the columns after it. */
  lemma {:induction false} ConcatAt(cols: seq<string>, i: nat)
    requires i < |cols|
    ensures Concat(cols) == Concat(cols[..i]) + cols[i] + Concat(cols[i + 1..])
  {
    var front := cols[..i] + [cols[i]];
    assert front[..|front| - 1] == cols[..i];
    assert Concat(front) == Concat(cols[..i]) + cols[i];
    assert cols == front + cols[i + 1..];
    ConcatAppend(front, cols[i + 1..]);
  }

  /** The record (or error) produced from `row`, read from `filename` after `n` records. */
  function RowToRecord(row: seq<string>, filename: string, n: int): Result<Record>
  {
    if |row| < 3 then Err(NotEnoughColumns(filename, n))
    else match ParseSensor(row[1])
      case None => Err(ExpectedBoolean(filename, n))
      case Some(sensor) => Ok(Record(filename, row[0], sensor, Concat(row[2..])))
  }

  /** `NewRecord`: checks the column count and the sensor flag, then builds the address column
      by column. */
  method NewRecord(row: seq<string>, filename: string, n: int) returns (r: Result<Record>)
    ensures r == RowToRecord(row, filename, n)
  {
    if |row| < 3 {
      return Err(NotEnoughColumns(filename, n));
    }
    var sensor := false;
    if row[1] == "1" || ToLower(row[1]) == "true" {
      sensor := true;
    } else if row[1] != "0" && ToLower(row[1]) != "false" {
      return Err(ExpectedBoolean(filename, n));
    }
    var cols := row[2..];
    var address := "";
    for i := 0 to |cols|
      invariant address == Concat(cols[..i])
    {
      assert cols[..i + 1][..i] == cols[..i];
      address := address + cols[i];
    }
    assert cols[..|cols|] == cols;
    return Ok(Record(filename, row[0], sensor, address));
  }

  /** A row with fewer than three columns never yields a record. */
  lemma NewRecordRejectsShortRows(row: seq<string>, filename: string, n: int)
    requires |row| < 3
    ensures RowToRecord(row, filename, n) == Err(NotEnoughColumns(filename, n))
  {
  }

  /** With three or more columns the outcome is decided by the sensor column alone: true for
      "1" or "true" in any case, false for "0" or "false" in any case, an error otherwise. */
  lemma NewRecordSensor(row: seq<string>, filename: string, n: int)
    requires |row| >= 3
    ensures var r := RowToRecord(row, filename, n);
      && (r.Ok? && r.value.sensor <==> TrueSpelling(row[1]))
      && (r.Ok? && !r.value.sensor <==> FalseSpelling(row[1]))
      && (r == Err(ExpectedBoolean(filename, n)) <==> !TrueSpelling(row[1]) && !FalseSpelling(row[1]))
      && (r.Ok? || r == Err(ExpectedBoolean(filename, n)))
  {
    SensorSpellings(row[1]);
  }

  /** A successful record names its file, takes its ID from column 0 and its address from
      columns 2 onwards, each column whole and in order with nothing between them. */
  lemma NewRecordFields(row: seq<string>, filename: string, n: int)
    requires RowToRecord(row, filename, n).Ok?
    ensures var rec := RowToRecord(row, filename, n).value;
      && |row| >= 3 && rec.source == filename && rec.id == row[0]
      && forall i :: 2 <= i < |row| ==>
           rec.address == Concat(row[2..i]) + row[i] + Concat(row[i + 1..])
  {
    var cols := row[2..];
    forall i | 2 <= i < |row|
      ensures Concat(cols) == Concat(row[2..i]) + row[i] + Concat(row[i + 1..])
    {
      ConcatAt(cols, i - 2);
      assert cols[..i - 2] == row[2..i] && cols[i - 2 + 1..] == row[i + 1..];
    }
  }
}
