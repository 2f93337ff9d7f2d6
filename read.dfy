/** The one-off statement importer read.py: every data row of a four-column CSV
    statement goes to `insert_xaction` for institution 1. */
module StatementReader {
  import opened Outcomes
  import opened TransactionStore

  /** The institution every row read here is filed under. */
  const StatementInstitution := 1

  /** The rows the loop passes on: exactly four columns, not the `Date` header, and a
      non-empty amount column (balance lines leave it empty). */
  predicate Forwardable(row: seq<string>) {
    |row| == 4 && row[0] != "Date" && row[2] != ""
  }

  function Forwarded(csv: seq<seq<string>>): (r: seq<seq<string>>)
    ensures |r| <= |csv|
    ensures forall k :: 0 <= k < |r| ==> Forwardable(r[k])
  {
    if csv == [] then []
    else if Forwardable(csv[0]) then [csv[0]] + Forwarded(csv[1..])
    else Forwarded(csv[1..])
  }

  /** `insert_xaction`'s reading of each row, in order. */
  function ParsedRows(csv: seq<seq<string>>): (r: seq<Result<Xaction>>)
    ensures |r| == |csv| && forall k :: 0 <= k < |csv| ==> r[k] == ParseXactionRow(csv[k])
  {
    MapSeq(ParseXactionRow, csv)
  }

  /** The table, its next key and the exception, if any, that stopped the script. */
  datatype Outcome = Outcome(rows: seq<StoredTx>, nextId: nat, error: Option<PyError>)

  /** Inserting read rows one after another: the first row that raised ends the script
      with that exception, leaving the rows inserted before it in place. */
  function InsertAll(rows: seq<StoredTx>, nextId: nat, xs: seq<Result<Xaction>>): Outcome
    decreases |xs|
  {
    if xs == [] then Outcome(rows, nextId, None)
    else
      match xs[0]
      case Err(e) => Outcome(rows, nextId, Some(e))
      case Ok(x) => InsertAll(Inserted(rows, nextId, StatementInstitution, x), NextIdAfter(rows, nextId, x), xs[1..])
  }

  /** What running the loop over `csv` does to a table: the forwarded rows, each read
      by `insert_xaction` and inserted in turn. */
  function Read(rows: seq<StoredTx>, nextId: nat, csv: seq<seq<string>>): Outcome {
    InsertAll(rows, nextId, ParsedRows(Forwarded(csv)))
  }

  /** The loop's step: a skipped row contributes nothing, a forwarded row its parse. */
  lemma ReadStep(csv: seq<seq<string>>, i: int)
    requires 0 <= i < |csv|
    ensures ParsedRows(Forwarded(csv[i..]))
         == (if Forwardable(csv[i]) then [ParseXactionRow(csv[i])] else []) + ParsedRows(Forwarded(csv[i + 1..]))
  {
    var t := csv[i..];
    assert t[0] == csv[i] && t[1..] == csv[i + 1..];
    if Forwardable(csv[i]) {
      var f := Forwarded(t);
      assert f[0] == csv[i] && f[1..] == Forwarded(csv[i + 1..]);
      assert ParsedRows(f)[1..] == ParsedRows(f[1..]);
    }
  }

  /** Reading from row `i` on: skip it, stop at its exception, or insert it and go on. */
  lemma ReadFrom(rows: seq<StoredTx>, nextId: nat, csv: seq<seq<string>>, i: int)
    requires 0 <= i < |csv|
    ensures !Forwardable(csv[i]) ==> Read(rows, nextId, csv[i..]) == Read(rows, nextId, csv[i + 1..])
    ensures Forwardable(csv[i]) && ParseXactionRow(csv[i]).Err? ==>
      Read(rows, nextId, csv[i..]) == Outcome(rows, nextId, Some(ParseXactionRow(csv[i]).error))
    ensures Forwardable(csv[i]) && ParseXactionRow(csv[i]).Ok? ==>
      var x := ParseXactionRow(csv[i]).value;
      Read(rows, nextId, csv[i..])
        == Read(Inserted(rows, nextId, StatementInstitution, x), NextIdAfter(rows, nextId, x), csv[i + 1..])
  {
    ReadStep(csv, i);
    var xs := ParsedRows(Forwarded(csv[i..]));
    if Forwardable(csv[i]) {
      assert xs[0] == ParseXactionRow(csv[i]) && xs[1..] == ParsedRows(Forwarded(csv[i + 1..]));
    }
  }

  /** A forwardable row of the file is among the forwarded rows. */
  lemma {:induction false} ForwardedContains(csv: seq<seq<string>>, k: int)
    requires 0 <= k < |csv| && Forwardable(csv[k])
    ensures csv[k] in Forwarded(csv)
    decreases |csv|
  {
    if k > 0 {
      assert csv[1..][k - 1] == csv[k];
      ForwardedContains(csv[1..], k - 1);
    }
  }

  /** Inserting only ever appends: the rows present before are still there, in order. */
  lemma {:induction false} InsertAllAppends(rows: seq<StoredTx>, nextId: nat, xs: seq<Result<Xaction>>)
    ensures |InsertAll(rows, nextId, xs).rows| >= |rows| && InsertAll(rows, nextId, xs).rows[..|rows|] == rows
    decreases |xs|
  {
    if xs != [] && xs[0].Ok? {
      var x := xs[0].value;
      var mid := Inserted(rows, nextId, StatementInstitution, x);
      InsertedKeepsAndRecords(rows, nextId, StatementInstitution, x);
      InsertAllAppends(mid, NextIdAfter(rows, nextId, x), xs[1..]);
      var out := InsertAll(mid, NextIdAfter(rows, nextId, x), xs[1..]).rows;
      assert out[..|rows|] == out[..|mid|][..|rows|];
    }
  }

  /** Inserting keeps the serial keys well numbered. */
  lemma {:induction false} InsertAllKeepsNumbering(rows: seq<StoredTx>, nextId: nat, xs: seq<Result<Xaction>>)
    requires WellNumbered(rows, nextId)
    ensures WellNumbered(InsertAll(rows, nextId, xs).rows, InsertAll(rows, nextId, xs).nextId)
    decreases |xs|
  {
    if xs != [] && xs[0].Ok? {
      var x := xs[0].value;
      InsertKeepsNumbering(rows, nextId, StatementInstitution, x);
      InsertAllKeepsNumbering(Inserted(rows, nextId, StatementInstitution, x), NextIdAfter(rows, nextId, x), xs[1..]);
    }
  }

  /** After inserting without an exception, every inserted transaction is in the table,
      and so is everything that was there before; and nothing raised. */
  lemma {:induction false} InsertAllRecords(rows: seq<StoredTx>, nextId: nat, xs: seq<Result<Xaction>>, y: Xaction)
    requires InsertAll(rows, nextId, xs).error.None?
    requires Recorded(rows, y) || Ok(y) in xs
    ensures Recorded(InsertAll(rows, nextId, xs).rows, y)
    decreases |xs|
  {
    if xs != [] {
      var x := xs[0].value;
      var mid := Inserted(rows, nextId, StatementInstitution, x);
      InsertedKeepsAndRecords(rows, nextId, StatementInstitution, x);
      if Recorded(rows, y) {
        InsertKeepsRecorded(rows, nextId, StatementInstitution, x, y);
      } else if x != y {
        assert Ok(y) in xs[1..];
      }
      InsertAllRecords(mid, NextIdAfter(rows, nextId, x), xs[1..], y);
    }
  }

  /** Inserting raised nothing exactly when every row read without an error. */
  lemma {:induction false} InsertAllSucceeds(rows: seq<StoredTx>, nextId: nat, xs: seq<Result<Xaction>>)
    ensures InsertAll(rows, nextId, xs).error.None? <==> forall k :: 0 <= k < |xs| ==> xs[k].Ok?
    decreases |xs|
  {
    if xs != [] && xs[0].Ok? {
      var x := xs[0].value;
      InsertAllSucceeds(Inserted(rows, nextId, StatementInstitution, x), NextIdAfter(rows, nextId, x), xs[1..]);
      assert forall k :: 1 <= k < |xs| ==> xs[k] == xs[1..][k - 1];
    }
  }

  /** Inserting transactions that are all in the table already raises nothing and
      changes nothing. */
  lemma {:induction false} InsertAllRecordedIsNoop(rows: seq<StoredTx>, nextId: nat, xs: seq<Result<Xaction>>)
    requires forall k :: 0 <= k < |xs| ==> xs[k].Ok? && Recorded(rows, xs[k].value)
    ensures InsertAll(rows, nextId, xs) == Outcome(rows, nextId, None)
    decreases |xs|
  {
    if xs != [] {
      assert forall k :: 0 <= k < |xs[1..]| ==> xs[1..][k] == xs[k + 1];
      InsertAllRecordedIsNoop(rows, nextId, xs[1..]);
    }
  }

  /** Every forwarded row of a file read without an exception is in the table
      afterwards, and so is everything that was there before. */
  lemma ReadRecordsAll(rows: seq<StoredTx>, nextId: nat, csv: seq<seq<string>>, k: int)
    requires Read(rows, nextId, csv).error.None?
    requires 0 <= k < |csv| && Forwardable(csv[k])
    ensures ParseXactionRow(csv[k]).Ok?
    ensures Recorded(Read(rows, nextId, csv).rows, ParseXactionRow(csv[k]).value)
  {
    var xs := ParsedRows(Forwarded(csv));
    ForwardedContains(csv, k);
    var j :| 0 <= j < |Forwarded(csv)| && Forwarded(csv)[j] == csv[k];
    assert xs[j] == ParseXactionRow(csv[k]);
    InsertAllSucceeds(rows, nextId, xs);
    InsertAllRecords(rows, nextId, xs, xs[j].value);
  }

  /** Importing the same statement a second time, after a first import that went
      through, leaves the table exactly as the first import left it. */
  lemma ReadTwiceIsReadOnce(rows: seq<StoredTx>, nextId: nat, csv: seq<seq<string>>)
    requires Read(rows, nextId, csv).error.None?
    ensures var once := Read(rows, nextId, csv);
      Read(once.rows, once.nextId, csv) == once
  {
    var once := Read(rows, nextId, csv);
    var xs := ParsedRows(Forwarded(csv));
    InsertAllSucceeds(rows, nextId, xs);
    forall k | 0 <= k < |xs|
      ensures xs[k].Ok? && Recorded(once.rows, xs[k].value)
    {
      InsertAllRecords(rows, nextId, xs, xs[k].value);
    }
    InsertAllRecordedIsNoop(once.rows, once.nextId, xs);
  }

  /** A bank's header line and its balance lines, which carry no amount, are skipped. */
  lemma HeaderAndBalanceSkipped(rest: seq<seq<string>>)
    ensures !Forwardable(["Date", "Description", "Amount", "Running Bal."])
    ensures !Forwardable(["10/01/2013", "Beginning balance as of 10/01/2013", "", "1000.00"])
    ensures Forwarded([["Date", "Description", "Amount", "Running Bal."]] + rest) == Forwarded(rest)
  {
    var c := [["Date", "Description", "Amount", "Running Bal."]] + rest;
    assert c[1..] == rest;
  }

  /** The script: reads every row of the statement in order. */
  method ReadStatement(table: TransactionTable, csv: seq<seq<string>>) returns (err: Option<PyError>)
    requires table.Valid()
    modifies table
    ensures table.Valid()
    ensures Read(old(table.rows), old(table.nextId), csv) == Outcome(table.rows, table.nextId, err)
  {
    var i := 0;
    err := None;
    ghost var outcome := Read(table.rows, table.nextId, csv);
    while i < |csv|
      invariant 0 <= i <= |csv| && table.Valid() && err.None?
      invariant outcome == Read(table.rows, table.nextId, csv[i..])
    {
      var row := csv[i];
      ghost var rows, nextId := table.rows, table.nextId;
      ReadFrom(rows, nextId, csv, i);
      if |row| != 4 {
        i := i + 1;
        continue;
      }
      if row[0] == "Date" {
        i := i + 1;
        continue;
      }
      if row[2] == "" {
        i := i + 1;
        continue;
      }
      assert Forwardable(row);
      err := table.InsertXaction(StatementInstitution, row);
      if err.Some? {
        assert Read(rows, nextId, csv[i..]) == Outcome(table.rows, table.nextId, err);
        return;
      }
      assert Read(rows, nextId, csv[i..]) == Read(table.rows, table.nextId, csv[i + 1..]);
      i := i + 1;
    }
    assert csv[i..] == [];
  }
}
