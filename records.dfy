/**
 * Stored attendance records: `NameTagDB` (src/main.rs:233-242), its creation
 * from a parsed tag (src/main.rs:244-260), and the six-column row the store
 * keeps for it (written at src/main.rs:74-81 and 92-101, read back by
 * `from_row` at src/main.rs:171-182).
 */
module Records {
  import opened Wrappers
  import opened Ascii
  import opened Numbers
  import opened Clock
  import opened NameTags

  const I64_MIN: int := -0x8000_0000_0000_0000
  const I64_MAX: int := 0x7FFF_FFFF_FFFF_FFFF

  type I64 = i: int | I64_MIN <= i <= I64_MAX

  datatype NameTagDB = NameTagDB(
    id: string,
    firstName: string,
    lastName: string,
    gradYear: I64,
    badge: bool,
    creationDate: string)

  /** `From<NameTag> for NameTagDB`, with its two clock reads passed in: the
      epoch milliseconds from the system clock and the local date. */
  function Materialize(t: NameTag, epochMillis: nat, now: LocalTime): NameTagDB
  {
    NameTagDB(
      Decimal(epochMillis),
      t.firstName,
      t.lastName,
      t.gradYear as int,
      t.badge,
      Decimal(now.day) + "/" + Decimal(now.month) + "/" + SignedDecimal(now.year))
  }

  /** The record keeps the tag's names, year and mode; its id reads back as the
      clock's milliseconds; its date is three `/`-separated numbers, day first. */
  lemma MaterializeSpec(t: NameTag, epochMillis: nat, now: LocalTime)
    ensures var r := Materialize(t, epochMillis, now);
      && r.firstName == t.firstName && r.lastName == t.lastName && r.badge == t.badge
      && r.gradYear == t.gradYear && 0 <= r.gradYear <= U16_MAX
      && AllDigits(r.id) && DigitsValue(r.id) == epochMillis
      && Split(r.creationDate, '/') == [Decimal(now.day), Decimal(now.month), SignedDecimal(now.year)]
  {
    DecimalValue(epochMillis);
    var parts := [Decimal(now.day), Decimal(now.month), SignedDecimal(now.year)];
    forall i | 0 <= i < 3
      ensures '/' !in parts[i]
    {
      if now.year < 0 {
        assert AllDigits(Decimal(-now.year));
        assert SignedDecimal(now.year) == "-" + Decimal(-now.year);
      }
      assert forall j | 0 <= j < |parts[i]| :: parts[i][j] != '/';
    }
    assert parts[1..] == [parts[1], parts[2]] && parts[1..][1..] == [parts[2]];
    assert Join(parts[1..], '/') == parts[1] + "/" + parts[2];
    assert Materialize(t, epochMillis, now).creationDate == Join(parts, '/');
    SplitJoin(parts, '/');
  }

  /** Records made at different milliseconds have different ids. */
  lemma MaterializeIdsDiffer(t1: NameTag, m1: nat, now1: LocalTime, t2: NameTag, m2: nat, now2: LocalTime)
    requires m1 != m2
    ensures Materialize(t1, m1, now1).id != Materialize(t2, m2, now2).id
  {
    DecimalInjective(m1, m2);
  }

  // ---------------------------------------------------------------------
  // The store's rows
  // ---------------------------------------------------------------------

  /** An SQLite value. */
  datatype SqlValue = Null | Integer(i: I64) | Real(r: real) | Text(s: string) | Blob(bytes: seq<bv8>)

  type Row = seq<SqlValue>

  /** The one error a row read reports here: a missing column or a column of the
      wrong type. */
  datatype ExtractionError = ExtractionError

  /** The insert tuple `(ID, first_name, last_name, grad_year, badge,
      creation_date)`; a `bool` is bound as the integer 1 or 0. */
  function ToRow(r: NameTagDB): (row: Row)
    ensures |row| == 6
  {
    [Text(r.id), Text(r.firstName), Text(r.lastName), Integer(r.gradYear),
     Integer(if r.badge then 1 else 0), Text(r.creationDate)]
  }

  function GetText(row: Row, k: nat): Result<string, ExtractionError>
  {
    if k < |row| && row[k].Text? then Ok(row[k].s) else Err(ExtractionError)
  }

  function GetInteger(row: Row, k: nat): Result<I64, ExtractionError>
  {
    if k < |row| && row[k].Integer? then Ok(row[k].i) else Err(ExtractionError)
  }

  /** A `bool` column accepts any integer; non-zero reads as true. */
  function GetBool(row: Row, k: nat): Result<bool, ExtractionError>
  {
    if k < |row| && row[k].Integer? then Ok(row[k].i != 0) else Err(ExtractionError)
  }

  /** `NameTagDB::from_row`: columns 0 to 5 in insert order; the first failed
      column read is the error. */
  function FromRow(row: Row): Result<NameTagDB, ExtractionError>
  {
    match (GetText(row, 0), GetText(row, 1), GetText(row, 2), GetInteger(row, 3), GetBool(row, 4), GetText(row, 5))
    case (Ok(id), Ok(first), Ok(last), Ok(year), Ok(badge), Ok(date)) =>
      Ok(NameTagDB(id, first, last, year, badge, date))
    case _ => Err(ExtractionError)
  }

  /** Reading back an inserted row gives the inserted record. */
  lemma RowRoundTrip(r: NameTagDB)
    ensures FromRow(ToRow(r)) == Ok(r)
  {
  }

  /** Conversely, a six-column row that reads as a record, and whose badge column
      holds 0 or 1, is exactly the row that record would be written as. */
  lemma RowReadBack(row: Row)
    requires |row| == 6 && row[4] in [Integer(0), Integer(1)]
    requires FromRow(row).Ok?
    ensures ToRow(FromRow(row).value) == row
  {
  }

  /** Every row of the store reads back as a record. */
  ghost predicate AllDecode(rows: seq<Row>)
  {
    forall k | 0 <= k < |rows| :: FromRow(rows[k]).Ok?
  }

  /** The records a full scan reads, in storage order. */
  function DecodeAll(rows: seq<Row>): (rs: seq<NameTagDB>)
    requires AllDecode(rows)
    ensures |rs| == |rows|
    ensures forall k | 0 <= k < |rows| :: Ok(rs[k]) == FromRow(rows[k])
  {
    if rows == [] then []
    else DecodeAll(rows[..|rows| - 1]) + [FromRow(rows[|rows| - 1]).value]
  }

  /** Inserting a record's row extends the scan by that record. */
  lemma DecodeAppend(rows: seq<Row>, r: NameTagDB)
    requires AllDecode(rows)
    ensures AllDecode(rows + [ToRow(r)])
    ensures DecodeAll(rows + [ToRow(r)]) == DecodeAll(rows) + [r]
  {
    RowRoundTrip(r);
    assert (rows + [ToRow(r)])[..|rows|] == rows;
  }

  /** Scanning one more row of the store extends the scan by that row's record. */
  lemma DecodePrefix(rows: seq<Row>, i: nat)
    requires AllDecode(rows) && i < |rows|
    ensures AllDecode(rows[..i]) && AllDecode(rows[..i + 1])
    ensures DecodeAll(rows[..i + 1]) == DecodeAll(rows[..i]) + [FromRow(rows[i]).value]
  {
    assert rows[..i + 1][..i] == rows[..i];
  }

  function ToRows(rs: seq<NameTagDB>): (rows: seq<Row>)
    ensures |rows| == |rs|
    ensures forall k | 0 <= k < |rs| :: rows[k] == ToRow(rs[k])
  {
    seq(|rs|, k requires 0 <= k < |rs| => ToRow(rs[k]))
  }

  /** Writing records as rows and scanning them gives the records back, in order. */
  lemma ScanRoundTrip(rs: seq<NameTagDB>)
    ensures AllDecode(ToRows(rs)) && DecodeAll(ToRows(rs)) == rs
  {
    forall k | 0 <= k < |rs|
      ensures FromRow(ToRows(rs)[k]) == Ok(rs[k])
    {
      RowRoundTrip(rs[k]);
    }
  }
}
