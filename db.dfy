/** The `transactions` table and the row importer `insert_xaction` of db.py. */
module TransactionStore {
  import opened Outcomes
  import opened PyText
  import opened Calendar

  /** One row of the `transactions` table: the serial primary key, the institution,
      the date, the description and the amount. */
  datatype StoredTx = StoredTx(id: nat, institutionId: int, date: Date, description: string, amount: real)

  /** The three values `insert_xaction` reads out of a statement row. */
  datatype Xaction = Xaction(date: Date, description: string, amount: real)

  // ---------------------------------------------------------------------------
  // Reading a row
  // ---------------------------------------------------------------------------

  /** `[int(r) for r in ps]`: the whole list, or `None` (a `ValueError`) as soon as one
      piece is not an integer. */
  function ParseInts(ps: seq<string>): (r: Option<seq<int>>)
    ensures r.Some? <==> forall k :: 0 <= k < |ps| ==> ParseInt(ps[k]).Some?
    ensures r.Some? ==> |r.value| == |ps| && forall k :: 0 <= k < |ps| ==> ParseInt(ps[k]) == Some(r.value[k])
  {
    MapAll(ParseInt, ps)
  }

  /** The date column: the text split on `/`, every piece through `int()`, then
      `date(f[2], f[0], f[1])`. A piece that is not an integer, or an impossible date,
      is a `ValueError`; a field too large for a C `int` an `OverflowError`; fewer than
      three pieces is an `IndexError`; pieces after the third are ignored. */
  function ParseSlashDate(text: string): (r: Result<Date>)
    ensures r.Ok? ==> ValidDate(r.value)
    ensures r.Ok? ==> |SplitOn(text, '/')| >= 3
    ensures r == Err(IndexError) ==> |SplitOn(text, '/')| < 3
    ensures ParseInts(SplitOn(text, '/')).None? ==> r == Err(ValueError)
    ensures var ps := SplitOn(text, '/');
      ParseInts(ps).Some? && |ps| >= 3 ==>
        var f := ParseInts(ps).value; r == MakeDate(f[2], f[0], f[1])
  {
    match ParseInts(SplitOn(text, '/'))
    case None => Err(ValueError)
    case Some(f) => if |f| < 3 then Err(IndexError) else MakeDate(f[2], f[0], f[1])
  }

  /** `insert_xaction`'s reading of `row`: the date from `row[0]`, the description
      `row[1]` as it is, and `float(row[2])`, evaluated in that order, so that the first
      failure decides which exception is raised. */
  function ParseXactionRow(row: seq<string>): (r: Result<Xaction>)
    ensures r.Ok? <==> |row| >= 3 && ParseSlashDate(row[0]).Ok? && ParseFloat(row[2]).Some?
    ensures r.Ok? ==> Ok(r.value.date) == ParseSlashDate(row[0]) && r.value.description == row[1]
                      && Some(r.value.amount) == ParseFloat(row[2])
  {
    if |row| == 0 then Err(IndexError)
    else
      match ParseSlashDate(row[0])
      case Err(e) => Err(e)
      case Ok(d) =>
        if |row| < 3 then Err(IndexError)
        else
          match ParseFloat(row[2])
          case None => Err(ValueError)
          case Some(a) => Ok(Xaction(d, row[1], a))
  }

  /** The error a row raises: an empty row, a date column that is not a date, a row
      with no amount column, or an amount that is not a number. */
  lemma XactionRowErrors(row: seq<string>)
    ensures |row| == 0 ==> ParseXactionRow(row) == Err(IndexError)
    ensures |row| > 0 && ParseSlashDate(row[0]).Err? ==> ParseXactionRow(row) == Err(ParseSlashDate(row[0]).error)
    ensures |row| > 0 && ParseSlashDate(row[0]).Ok? && |row| < 3 ==> ParseXactionRow(row) == Err(IndexError)
    ensures |row| >= 3 && ParseSlashDate(row[0]).Ok? && ParseFloat(row[2]).None? ==> ParseXactionRow(row) == Err(ValueError)
  {
  }

  /** Columns after the third never change what is read. */
  lemma ExtraColumnsIgnored(row: seq<string>, extra: seq<string>)
    requires |row| >= 3
    ensures ParseXactionRow(row + extra) == ParseXactionRow(row)
  {
    assert (row + extra)[0] == row[0] && (row + extra)[1] == row[1] && (row + extra)[2] == row[2];
  }

  /** `int()` of a zero-padded two- or four-digit field is its value. */
  lemma IntOfPad2(n: int)
    requires 0 <= n <= 99
    ensures ParseInt(Pad2(n)) == Some(n)
  {
    Pad2Value(n);
    IntOfDigits(Pad2(n));
  }

  lemma IntOfPad4(n: int)
    requires 0 <= n <= 9999
    ensures ParseInt(Pad4(n)) == Some(n)
  {
    Pad4Value(n, n / 100, n % 100);
    IntOfDigits(Pad4(n));
  }

  lemma Pad4Value(n: int, q: int, m: int)
    requires 0 <= n <= 9999 && q == n / 100 && m == n % 100
    ensures Pad4(n) != [] && AllDigits(Pad4(n)) && DigitsValue(Pad4(n)) == n
  {
    Pad2Value(q);
    Pad2Value(m);
    DigitsAppend2(Pad2(q), Pad2(m));
    HundredsSplit(n, q, m);
  }

  lemma HundredsSplit(n: int, q: int, m: int)
    requires q == n / 100 && m == n % 100
    ensures q * 100 + m == n
  {
  }

  lemma DigitsAppend2(a: string, b: string)
    requires AllDigits(a) && AllDigits(b) && |b| == 2
    ensures AllDigits(a + b) && DigitsValue(a + b) == DigitsValue(a) * 100 + DigitsValue(b)
  {
    var s, a1 := a + b, a + [b[0]];
    assert AllDigits(a1) && AllDigits(s);
    assert s[..|s| - 1] == a1 && s[|s| - 1] == b[1];
    assert a1[..|a1| - 1] == a && a1[|a1| - 1] == b[0];
    assert DigitsValue(a1) == DigitsValue(a) * 10 + DigitValue(b[0]);
    assert b[..|b| - 1] == [b[0]] && [b[0]][..0] == [];
    assert DigitsValue([b[0]]) == DigitValue(b[0]);
    assert DigitsValue(b) == DigitValue(b[0]) * 10 + DigitValue(b[1]);
  }

  /** A date written `MM/DD/YYYY` with zero padding reads back as that date. */
  lemma SlashDateRoundTrip(d: Date)
    requires ValidDate(d)
    ensures ParseSlashDate(FormatSlash(d)) == Ok(d)
  {
    ValidDateBounds(d);
    IntOfPad2(d.month);
    IntOfPad2(d.day);
    IntOfPad4(d.year);
    SplitSlashDate(d);
    SlashDateOfPieces(FormatSlash(d), Pad2(d.month), Pad2(d.day), Pad4(d.year), d);
  }

  lemma SlashDateOfPieces(text: string, a: string, b: string, c: string, d: Date)
    requires ValidDate(d) && SplitOn(text, '/') == [a, b, c]
    requires ParseInt(a) == Some(d.month) && ParseInt(b) == Some(d.day) && ParseInt(c) == Some(d.year)
    ensures ParseSlashDate(text) == Ok(d)
  {
    ParseThreeInts(a, b, c, d.month, d.day, d.year);
    SlashDateOfInts(text, d);
  }

  lemma SlashDateOfInts(text: string, d: Date)
    requires ValidDate(d) && ParseInts(SplitOn(text, '/')) == Some([d.month, d.day, d.year])
    ensures ParseSlashDate(text) == Ok(d)
  {
  }

  lemma ParseThreeInts(a: string, b: string, c: string, x: int, y: int, z: int)
    requires ParseInt(a) == Some(x) && ParseInt(b) == Some(y) && ParseInt(c) == Some(z)
    ensures ParseInts([a, b, c]) == Some([x, y, z])
  {
    assert ParseInts([]) == Some([]);
    ParseIntsCons(c, [], z, []);
    ParseIntsCons(b, [c] + [], y, [z] + []);
    ParseIntsCons(a, [b] + ([c] + []), x, [y] + ([z] + []));
    ThreeCons(a, b, c);
    ThreeCons(x, y, z);
  }

  lemma ParseIntsCons(p: string, ps: seq<string>, v: int, vs: seq<int>)
    requires ParseInt(p) == Some(v) && ParseInts(ps) == Some(vs)
    ensures ParseInts([p] + ps) == Some([v] + vs)
  {
    assert ([p] + ps)[0] == p && ([p] + ps)[1..] == ps;
  }

  lemma ThreeCons<T>(a: T, b: T, c: T)
    ensures [a] + ([b] + ([c] + [])) == [a, b, c]
  {
  }

  lemma SplitSlashDate(d: Date)
    requires ValidDate(d)
    ensures SplitOn(FormatSlash(d), '/') == [Pad2(d.month), Pad2(d.day), Pad4(d.year)]
  {
    var m, dd, y := Pad2(d.month), Pad2(d.day), Pad4(d.year);
    Pad2Value(d.month);
    Pad2Value(d.day);
    Pad2Value(d.year / 100);
    Pad2Value(d.year % 100);
    assert AllDigits(y);
    SplitOnPiece(y, "", '/');
    SplitOnPiece(dd, y, '/');
    SplitOnPiece(m, dd + ("/" + y), '/');
  }

  /** The description of the row db.py itself imports. */
  const PayrollDescription := "TRINET DES:PAYROLL ID:00001055623 INDN:KHETTRY,MANISH CO ID:19433..."

  /** The row db.py itself imports: four columns, the third `0.07`. It reads as
      October 31st 2013, the description unchanged and an amount of 0.07; the fourth
      column is not read. */
  lemma PayrollRowExample()
    ensures ParseXactionRow(["10/31/2013", PayrollDescription, "0.07", "4515.26"])
         == Ok(Xaction(Date(2013, 10, 31), PayrollDescription, 0.07))
  {
    PayrollRow(PayrollDescription);
  }

  /** That row, whatever its description. */
  lemma PayrollRow(description: string)
    ensures ParseXactionRow(["10/31/2013", description, "0.07", "4515.26"])
         == Ok(Xaction(Date(2013, 10, 31), description, 0.07))
  {
    var row := ["10/31/2013", description, "0.07", "4515.26"];
    assert row[0] == "10/31/2013" && row[1] == description && row[2] == "0.07";
    PayrollDate();
    SevenCents();
  }

  lemma PayrollDate()
    ensures ParseSlashDate("10/31/2013") == Ok(Date(2013, 10, 31))
  {
    assert FormatSlash(Date(2013, 10, 31)) == "10/31/2013";
    SlashDateRoundTrip(Date(2013, 10, 31));
  }

  lemma SevenCents()
    ensures ParseFloat("0.07") == Some(0.07)
  {
    assert FormatCents(7) == "0.07";
    FloatOfCents(7);
  }

  // ---------------------------------------------------------------------------
  // The table
  // ---------------------------------------------------------------------------

  predicate SameXaction(t: StoredTx, date: Date, description: string, amount: real) {
    t.date == date && t.description == description && t.amount == amount
  }

  /** `exists(date, description, amount)`: the id of a stored row with exactly that
      date, description and amount (the first such row), or `None`. */
  function FindRow(rows: seq<StoredTx>, date: Date, description: string, amount: real): (r: Option<nat>)
    ensures r.Some? <==> exists k :: 0 <= k < |rows| && SameXaction(rows[k], date, description, amount)
    ensures r.Some? ==> exists k :: 0 <= k < |rows| && SameXaction(rows[k], date, description, amount)
                                    && rows[k].id == r.value
                                    && forall j :: 0 <= j < k ==> !SameXaction(rows[j], date, description, amount)
  {
    if rows == [] then None
    else if SameXaction(rows[0], date, description, amount) then Some(rows[0].id)
    else
      var r := FindRow(rows[1..], date, description, amount);
      if r.None? then None
      else
        ghost var k :| 0 <= k < |rows[1..]| && SameXaction(rows[1..][k], date, description, amount)
                       && rows[1..][k].id == r.value
                       && forall j :: 0 <= j < k ==> !SameXaction(rows[1..][j], date, description, amount);
        assert rows[k + 1] == rows[1..][k];
        assert forall j :: 0 < j < k + 1 ==> rows[j] == rows[1..][j - 1];
        r
  }

  predicate Recorded(rows: seq<StoredTx>, x: Xaction) {
    FindRow(rows, x.date, x.description, x.amount).Some?
  }

  /** The table after inserting `x` for an institution: unchanged when a row with the
      same date, description and amount is already there, otherwise extended by one row
      numbered `nextId`. */
  function Inserted(rows: seq<StoredTx>, nextId: nat, institutionId: int, x: Xaction): seq<StoredTx> {
    if Recorded(rows, x) then rows
    else rows + [StoredTx(nextId, institutionId, x.date, x.description, x.amount)]
  }

  /** Serial keys: strictly increasing in insertion order and all below the next one. */
  predicate WellNumbered(rows: seq<StoredTx>, nextId: nat) {
    (forall i, j :: 0 <= i < j < |rows| ==> rows[i].id < rows[j].id)
    && (forall k :: 0 <= k < |rows| ==> rows[k].id < nextId)
  }

  function NextIdAfter(rows: seq<StoredTx>, nextId: nat, x: Xaction): nat {
    if Recorded(rows, x) then nextId else nextId + 1
  }

  /** After an insert the transaction is recorded; the old rows are kept, in order, and
      at most one row is added, carrying exactly the inserted values and the next key. */
  lemma InsertedKeepsAndRecords(rows: seq<StoredTx>, nextId: nat, institutionId: int, x: Xaction)
    ensures var after := Inserted(rows, nextId, institutionId, x);
      Recorded(after, x) && |rows| <= |after| <= |rows| + 1 && after[..|rows|] == rows
      && (|after| == |rows| <==> Recorded(rows, x))
      && (|after| > |rows| ==> after[|rows|] == StoredTx(nextId, institutionId, x.date, x.description, x.amount))
  {
    var after := Inserted(rows, nextId, institutionId, x);
    if !Recorded(rows, x) {
      assert SameXaction(after[|rows|], x.date, x.description, x.amount);
    }
  }

  /** Inserting the same transaction again changes nothing, whatever institution and
      key the second insert would have used. */
  lemma InsertIdempotent(rows: seq<StoredTx>, nextId: nat, institutionId: int, x: Xaction,
                         nextId': nat, institutionId': int)
    ensures var once := Inserted(rows, nextId, institutionId, x);
      Inserted(once, nextId', institutionId', x) == once
  {
    InsertedKeepsAndRecords(rows, nextId, institutionId, x);
  }

  /** An insert keeps the serial keys well numbered. */
  lemma InsertKeepsNumbering(rows: seq<StoredTx>, nextId: nat, institutionId: int, x: Xaction)
    requires WellNumbered(rows, nextId)
    ensures WellNumbered(Inserted(rows, nextId, institutionId, x), NextIdAfter(rows, nextId, x))
  {
  }

  /** A transaction already recorded stays recorded after any insert. */
  lemma InsertKeepsRecorded(rows: seq<StoredTx>, nextId: nat, institutionId: int, x: Xaction, y: Xaction)
    requires Recorded(rows, y)
    ensures Recorded(Inserted(rows, nextId, institutionId, x), y)
  {
    var k :| 0 <= k < |rows| && SameXaction(rows[k], y.date, y.description, y.amount);
    var after := Inserted(rows, nextId, institutionId, x);
    InsertedKeepsAndRecords(rows, nextId, institutionId, x);
    assert after[k] == rows[k];
  }

  /** The `transactions` table. */
  class TransactionTable {
    var rows: seq<StoredTx>
    var nextId: nat

    ghost predicate Valid()
      reads this
    {
      WellNumbered(rows, nextId)
    }

    /** An empty table whose serial key starts at 1. */
    constructor ()
      ensures Valid() && rows == [] && nextId == 1
    {
      rows := [];
      nextId := 1;
    }

    /** `exists(date, description, amount)` against the current rows. */
    function Exists(date: Date, description: string, amount: real): Option<nat>
      reads this
    {
      FindRow(rows, date, description, amount)
    }

    /** `insert_xaction(institution_id, row)`: reads the row, raising (here: returning)
      the first error without touching the table; otherwise inserts the transaction
      unless an equal one is already stored. */
    method InsertXaction(institutionId: int, row: seq<string>) returns (err: Option<PyError>)
      requires Valid()
      modifies this
      ensures Valid()
      ensures ParseXactionRow(row).Err? ==>
        err == Some(ParseXactionRow(row).error) && rows == old(rows) && nextId == old(nextId)
      ensures ParseXactionRow(row).Ok? ==>
        var x := ParseXactionRow(row).value;
        err == None && rows == Inserted(old(rows), old(nextId), institutionId, x)
        && nextId == NextIdAfter(old(rows), old(nextId), x)
    {
      var parsed := ParseXactionRow(row);
      if parsed.Err? {
        err := Some(parsed.error);
      } else {
        Store(institutionId, parsed.value);
        err := None;
      }
    }

    /** The insert step of `insert_xaction` for a row that was read. */
    method Store(institutionId: int, x: Xaction)
      requires Valid()
      modifies this
      ensures Valid()
      ensures rows == Inserted(old(rows), old(nextId), institutionId, x)
      ensures nextId == NextIdAfter(old(rows), old(nextId), x)
    {
      InsertKeepsNumbering(rows, nextId, institutionId, x);
      ghost var after, next := Inserted(rows, nextId, institutionId, x), NextIdAfter(rows, nextId, x);
      var skip := Exists(x.date, x.description, x.amount);
      if skip.None? {
        rows := rows + [StoredTx(nextId, institutionId, x.date, x.description, x.amount)];
        nextId := nextId + 1;
      }
      assert rows == after && nextId == next;
    }
  }
}
