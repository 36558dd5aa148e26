/** The CSV layout `generate_csv` writes: a header line, then one row of
    nineteen cells per program. Opening the file, quoting and encoding are
    not modelled. */
module Csv {
  import opened Extraction
  import opened Fields

  const Header: seq<string> := [
    "Name", "State", "City",
    "Salary PG1", "Salary PG2", "Salary PG3", "Salary PG4",
    "PTO PG1", "PTO PG2", "PTO PG3", "PTO PG4",
    "Min Step 1 Score", "Min Step 2 Score",
    "Avg. Step 1 Score", "Avg. Step 2 Score",
    "Residents (Total)", "Residents (Male)", "Residents (Female)",
    "Last Updated"]

  /** The row of one program, cell by cell under `Header`. The record must
      be well formed: the source indexes the four salaries, the four time-off
      entries and both pairs of scores directly. */
  function Row(info: Record): (row: seq<string>)
    requires WellFormed(info)
    ensures |row| == |Header|
    ensures FromRow(row) == info
  {
    [info.name, info.state, info.city]
    + info.salary + info.pto + info.minStepScores + info.avgStepScores
    + [info.demographics.total, info.demographics.male, info.demographics.female, info.lastUpdated]
  }

  /** Reading a row back into a record. */
  function FromRow(row: seq<string>): (info: Record)
    requires |row| == |Header|
    ensures WellFormed(info)
  {
    Record(
      name := row[0],
      state := row[1],
      city := row[2],
      salary := row[3..7],
      pto := row[7..11],
      minStepScores := row[11..13],
      avgStepScores := row[13..15],
      demographics := Demographics(total := row[15], male := row[16], female := row[17]),
      lastUpdated := row[18])
  }

  /** Every row of the right width is the row of the record read from it. */
  lemma RowFromRow(row: seq<string>)
    requires |row| == |Header|
    ensures Row(FromRow(row)) == row
  {
    var r := Row(FromRow(row));
    forall i | 0 <= i < |row|
      ensures r[i] == row[i]
    {
    }
  }

  /** Where each field of a record lands in its row; the headers below name
      the same positions. Male comes before female although the parser reads
      female first. */
  lemma RowCells(info: Record)
    requires WellFormed(info)
    ensures var row := Row(info);
      row[0] == info.name && row[1] == info.state && row[2] == info.city
      && (forall y :: 0 <= y < 4 ==> row[3 + y] == info.salary[y] && row[7 + y] == info.pto[y])
      && (forall y :: 0 <= y < 2 ==> row[11 + y] == info.minStepScores[y] && row[13 + y] == info.avgStepScores[y])
      && row[15] == info.demographics.total && row[16] == info.demographics.male
      && row[17] == info.demographics.female && row[18] == info.lastUpdated
  {
  }

  /** The headers of the single-valued columns. */
  lemma HeaderNames()
    ensures Header[0] == "Name" && Header[1] == "State" && Header[2] == "City"
    ensures Header[15] == "Residents (Total)" && Header[16] == "Residents (Male)"
    ensures Header[17] == "Residents (Female)" && Header[18] == "Last Updated"
  {
  }

  /** Year `y + 1` of the salaries and of the time off sits under the header
      for that year. */
  lemma YearHeader(y: nat)
    requires y < 4
    ensures Header[3 + y] == "Salary PG" + [Digit(y + 1)]
    ensures Header[7 + y] == "PTO PG" + [Digit(y + 1)]
  {
    if y == 0 {
      assert Digit(1) == '1';
    } else if y == 1 {
      assert Digit(2) == '2';
    } else if y == 2 {
      assert Digit(3) == '3';
    } else {
      assert Digit(4) == '4';
    }
  }

  /** Step `y + 1` of the minimum and average scores sits under the header
      for that step. */
  lemma ScoreHeader(y: nat)
    requires y < 2
    ensures Header[11 + y] == "Min Step " + [Digit(y + 1)] + " Score"
    ensures Header[13 + y] == "Avg. Step " + [Digit(y + 1)] + " Score"
  {
    if y == 0 {
      assert Digit(1) == '1';
    } else {
      assert Digit(2) == '2';
    }
  }
}
