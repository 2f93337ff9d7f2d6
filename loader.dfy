/** The bulk loaders of loader.py: a delimited statement read through one of the
    institution profiles, and a tagged (QFX) statement read node by node. Both hand
    every transaction to the database's `insert_transaction`, which is modelled as a
    log of the calls it receives. */
module Loader {
  import opened Outcomes
  import opened PyText
  import opened Calendar
  import opened StatementParser

  /** One call `insert_transaction(institution_id[0], categories_map, **fields)`. The
      categories map, fetched once before the loop, is the same in every call and is
      not part of the model; `fields` is `None` for the empty dictionary a failed
      parse produces. */
  datatype InsertCall = InsertCall(institutionId: int, fields: Option<Draft>)

  /** The receiving end of `insert_transaction`: the calls made so far, in order. */
  class Database {
    var calls: seq<InsertCall>

    constructor()
      ensures calls == []
    {
      calls := [];
    }

    method InsertTransaction(call: InsertCall)
      modifies this
      ensures calls == old(calls) + [call]
    {
      calls := calls + [call];
    }
  }

  // ---------------------------------------------------------------------------
  // load_xactions
  // ---------------------------------------------------------------------------

  /** The calls made for the rows of a delimited statement: one per row, in file
      order, each with the row as the profile parses it, the empty parses included. */
  function CsvCalls(p: Profile, institutionId: int, rows: seq<seq<string>>): (r: seq<InsertCall>)
    ensures |r| == |rows|
    ensures forall k :: 0 <= k < |rows| ==> r[k] == InsertCall(institutionId, Parse(p, rows[k]))
  {
    if rows == [] then []
    else CsvCalls(p, institutionId, rows[..|rows| - 1]) + [InsertCall(institutionId, Parse(p, rows[|rows| - 1]))]
  }

  /** Loading a statement in two pieces makes the same calls as loading it at once. */
  lemma {:induction false} CsvCallsAppend(p: Profile, institutionId: int, a: seq<seq<string>>, b: seq<seq<string>>)
    ensures CsvCalls(p, institutionId, a + b) == CsvCalls(p, institutionId, a) + CsvCalls(p, institutionId, b)
    decreases |b|
  {
    if b != [] {
      var b0 := b[..|b| - 1];
      assert (a + b)[..|a + b| - 1] == a + b0;
      assert (a + b)[|a + b| - 1] == b[|b| - 1];
      CsvCallsAppend(p, institutionId, a, b0);
    }
  }

  /** `load_xactions`: an unknown parser name raises `KeyError` before anything is
      read; otherwise every row is parsed, counted and inserted, and the count, which
      is the number of rows, is what gets printed. `institution` is what
      `find_institution_id` returned: for `None`, the first row raises `TypeError`. */
  method LoadXactions(db: Database, parserName: string, institution: Option<int>, rows: seq<seq<string>>)
    returns (count: Result<nat>)
    modifies db
    ensures ProfileFor(parserName).Err? ==> count == Err(KeyError) && db.calls == old(db.calls)
    ensures ProfileFor(parserName).Ok? && institution.None? && rows != [] ==>
      count == Err(TypeError) && db.calls == old(db.calls)
    ensures ProfileFor(parserName).Ok? && (institution.Some? || rows == []) ==>
      count == Ok(|rows|)
      && db.calls == old(db.calls) + CsvCalls(ProfileFor(parserName).value, institution.GetOr(0), rows)
  {
    var profile := ProfileFor(parserName);
    if profile.Err? {
      return Err(KeyError);
    }
    var p := profile.value;
    var n := 0;
    while n < |rows|
      invariant 0 <= n <= |rows|
      invariant institution.None? ==> n == 0
      invariant db.calls == old(db.calls) + CsvCalls(p, institution.GetOr(0), rows[..n])
    {
      var parsed := Parse(p, rows[n]);
      if institution.None? {
        return Err(TypeError);
      }
      assert rows[..n + 1][..n] == rows[..n];
      db.InsertTransaction(InsertCall(institution.value, parsed));
      n := n + 1;
    }
    assert rows[..n] == rows;
    count := Ok(n);
  }

  // ---------------------------------------------------------------------------
  // load_qfx
  // ---------------------------------------------------------------------------

  /** The result of `tx.find(tag)`: `Missing` when the node has no such element,
      otherwise the element's children, of which only text children are modelled. */
  datatype Element = Missing | Element(contents: seq<string>)

  /** A `stmttrn` node: the four elements the loader looks up. */
  datatype StmtTrn = StmtTrn(dtposted: Element, trntype: Element, trnamt: Element, name: Element)

  /** `tx.find(tag).contents[0].strip()`: the element's first child without its
      surrounding whitespace. The text read neither starts nor ends with whitespace,
      and a child without padding is read as it is. */
  function StrippedText(e: Element): (r: Result<string>)
    ensures e.Missing? <==> r == Err(AttributeError)
    ensures e.Element? && e.contents == [] <==> r == Err(IndexError)
    ensures r.Ok? <==> e.Element? && e.contents != []
    ensures r.Ok? ==> Unpadded(r.value) && |r.value| <= |e.contents[0]|
    ensures r.Ok? && Unpadded(e.contents[0]) ==> r.value == e.contents[0]
  {
    if e.Missing? then Err(AttributeError)
    else if e.contents == [] then Err(IndexError)
    else
      var r := Strip(e.contents[0]);
      StripUnpadded(e.contents[0]);
      Ok(r)
  }

  /** `datetime.strptime(text[:14], "%Y%m%d%H%M%S")`: everything after the fourteenth
      character, such as the fractional seconds and time zone some files append, is
      ignored. */
  function PostedDate(text: string): (r: Result<DateTime>)
    ensures r.Ok? ==> ValidDateTime(r.value)
    ensures r.Err? ==> r.error == ValueError
  {
    match Strptime(Prefix(text, 14), CompactFormat)
    case None => Err(ValueError)
    case Some(t) => Ok(t)
  }

  /** The node's posted date: `tx.find('dtposted')`'s text, stripped and read as a
      timestamp. */
  function ReadPosted(tx: StmtTrn): (r: Result<DateTime>)
    ensures r.Ok? ==> ValidDateTime(r.value)
  {
    match StrippedText(tx.dtposted)
    case Err(e) => Err(e)
    case Ok(posted) => PostedDate(posted)
  }

  /** The node's amount: the transaction type is looked up first, although it is not
      used, then `float()` of the stripped `trnamt` text. */
  function ReadAmount(tx: StmtTrn): Result<real> {
    match StrippedText(tx.trntype)
    case Err(e) => Err(e)
    case Ok(_) =>
      match StrippedText(tx.trnamt)
      case Err(e) => Err(e)
      case Ok(amountText) =>
        match ParseFloat(amountText)
        case None => Err(ValueError)
        case Some(amount) => Ok(amount)
  }

  /** One loop iteration's reading of a node: the posted date, then the transaction
      type and amount, then the name; the first of these that fails raises. */
  function ReadStmtTrn(tx: StmtTrn): Result<Draft> {
    match ReadPosted(tx)
    case Err(e) => Err(e)
    case Ok(date) =>
      match ReadAmount(tx)
      case Err(e) => Err(e)
      case Ok(amount) =>
        match StrippedText(tx.name)
        case Err(e) => Err(e)
        case Ok(description) => Ok(Draft(date, description, amount))
  }

  /** Every node's reading, in document order. */
  function Readings(nodes: seq<StmtTrn>): (r: seq<Result<Draft>>)
    ensures |r| == |nodes| && forall k :: 0 <= k < |nodes| ==> r[k] == ReadStmtTrn(nodes[k])
  {
    MapSeq(ReadStmtTrn, nodes)
  }

  /** The database's calls after a tagged statement, and the exception, if any, that
      ended the load. */
  datatype QfxOutcome = QfxOutcome(calls: seq<InsertCall>, error: Option<PyError>)

  /** Inserting read nodes in turn after the calls already made: each node read
      without an exception is inserted before the next; the first exception ends the
      load, the inserts before it standing. */
  function QfxInserts(calls: seq<InsertCall>, institution: Option<int>, rs: seq<Result<Draft>>): QfxOutcome
    decreases |rs|
  {
    if rs == [] then QfxOutcome(calls, None)
    else
      match rs[0]
      case Err(e) => QfxOutcome(calls, Some(e))
      case Ok(d) =>
        match institution
        case None => QfxOutcome(calls, Some(TypeError))
        case Some(id) => QfxInserts(calls + [InsertCall(id, Some(d))], institution, rs[1..])
  }

  /** The loop over the `stmttrn` nodes in document order. */
  function QfxLoad(calls: seq<InsertCall>, institution: Option<int>, nodes: seq<StmtTrn>): (r: QfxOutcome)
    ensures |calls| <= |r.calls| <= |calls| + |nodes| && r.calls[..|calls|] == calls
    ensures r.error.None? <==> |r.calls| == |calls| + |nodes|
  {
    QfxInsertsMeaning(calls, institution, Readings(nodes));
    QfxInserts(calls, institution, Readings(nodes))
  }

  /** What inserting readings did: the earlier calls stay; without an exception,
      exactly one new call per reading, in order; with one, a new call for each reading
      before the one that raised, which is the first failed reading (or the first
      reading of all, when the institution is unknown). */
  lemma {:induction false} QfxInsertsMeaning(calls: seq<InsertCall>, institution: Option<int>, rs: seq<Result<Draft>>)
    ensures var out := QfxInserts(calls, institution, rs);
      var n := |out.calls| - |calls|;
      0 <= n <= |rs| && out.calls[..|calls|] == calls
      && (forall k :: 0 <= k < n ==>
            institution.Some? && rs[k].Ok? && out.calls[|calls| + k] == InsertCall(institution.value, Some(rs[k].value)))
      && (out.error.None? <==> n == |rs|)
      && (out.error.Some? ==>
            if rs[n].Err? then out.error == Some(rs[n].error)
            else institution.None? && n == 0 && out.error == Some(TypeError))
    decreases |rs|
  {
    if rs != [] && rs[0].Ok? && institution.Some? {
      var mid := calls + [InsertCall(institution.value, Some(rs[0].value))];
      QfxInsertsMeaning(mid, institution, rs[1..]);
      var out := QfxInserts(calls, institution, rs);
      assert out == QfxInserts(mid, institution, rs[1..]);
      assert out.calls[..|calls|] == out.calls[..|mid|][..|calls|];
      assert out.calls[|calls|] == out.calls[..|mid|][|calls|];
      forall k | 1 <= k < |out.calls| - |calls|
        ensures rs[k].Ok? && out.calls[|calls| + k] == InsertCall(institution.value, Some(rs[k].value))
      {
        assert |mid| + (k - 1) == |calls| + k && rs[1..][k - 1] == rs[k];
      }
      if out.error.Some? {
        assert rs[1..][|out.calls| - |mid|] == rs[|out.calls| - |calls|];
      }
    }
  }

  /** The loop's step from reading `i` on. */
  lemma QfxStep(calls: seq<InsertCall>, institution: Option<int>, rs: seq<Result<Draft>>, i: int)
    requires 0 <= i < |rs|
    ensures rs[i].Err? ==> QfxInserts(calls, institution, rs[i..]) == QfxOutcome(calls, Some(rs[i].error))
    ensures rs[i].Ok? && institution.None? ==> QfxInserts(calls, institution, rs[i..]) == QfxOutcome(calls, Some(TypeError))
    ensures rs[i].Ok? && institution.Some? ==>
      QfxInserts(calls, institution, rs[i..])
        == QfxInserts(calls + [InsertCall(institution.value, Some(rs[i].value))], institution, rs[i + 1..])
  {
    assert rs[i..][0] == rs[i] && rs[i..][1..] == rs[i + 1..];
  }

  /** `load_qfx` over the nodes `soup.find_all("stmttrn")` returns, for the institution
      row `find_institution_id` returned. */
  method LoadQfx(db: Database, institution: Option<int>, nodes: seq<StmtTrn>) returns (err: Option<PyError>)
    modifies db
    ensures QfxLoad(old(db.calls), institution, nodes) == QfxOutcome(db.calls, err)
  {
    ghost var rs := Readings(nodes);
    var i := 0;
    while i < |nodes|
      invariant 0 <= i <= |nodes|
      invariant QfxInserts(old(db.calls), institution, rs) == QfxInserts(db.calls, institution, rs[i..])
    {
      var read := ReadStmtTrn(nodes[i]);
      assert read == rs[i];
      QfxStep(db.calls, institution, rs, i);
      if read.Err? {
        return Some(read.error);
      }
      if institution.None? {
        return Some(TypeError);
      }
      db.InsertTransaction(InsertCall(institution.value, Some(read.value)));
      i := i + 1;
    }
    assert rs[i..] == [];
    err := None;
  }

  /** A posted timestamp has no whitespace and is fourteen characters long. */
  lemma CompactShape(t: DateTime)
    requires ValidDateTime(t)
    ensures |FormatCompact(t)| == 14 && NoSpace(FormatCompact(t))
  {
    Pad2Value(t.year / 100);
    Pad2Value(t.year % 100);
    Pad2Value(t.month);
    Pad2Value(t.day);
    Pad2Value(t.hour);
    Pad2Value(t.minute);
    Pad2Value(t.second);
  }

  /** Stripping a posted field and keeping its first fourteen characters recovers the
      timestamp, whatever padding comes before it and whatever follows it. */
  lemma PostedPrefix(left: string, t: DateTime, suffix: string)
    requires AllSpace(left) && ValidDateTime(t)
    ensures Prefix(Strip(left + FormatCompact(t) + suffix), 14) == FormatCompact(t)
  {
    var f := FormatCompact(t);
    CompactShape(t);
    var s := f + suffix;
    assert s[0] == f[0] && s[13] == f[13];
    assert left + f + suffix == left + s;
    LStripPadded(left, s);
    var r := RStrip(s);
    assert !IsSpace(s[13]);
    assert r[..14] == s[..14] == f;
  }

  /** The posted date of a node is the timestamp its field starts with, once stripped:
      any suffix after the fourteen digits changes nothing. */
  lemma PostedDateIgnoresSuffix(left: string, t: DateTime, suffix: string)
    requires AllSpace(left) && ValidDateTime(t)
    ensures PostedDate(Strip(left + FormatCompact(t) + suffix)) == Ok(t)
  {
    PostedPrefix(left, t, suffix);
    CompactRoundTrip(t);
  }

  /** A field written `20131207000000.000[-7:MST]` is midnight of December 7th 2013. */
  lemma MountainTimeExample()
    ensures PostedDate(Strip("20131207000000.000[-7:MST]")) == Ok(DateTime(2013, 12, 7, 0, 0, 0))
  {
    var t := DateTime(2013, 12, 7, 0, 0, 0);
    assert FormatCompact(t) == "20131207000000";
    assert "" + FormatCompact(t) + ".000[-7:MST]" == "20131207000000.000[-7:MST]";
    PostedDateIgnoresSuffix("", t, ".000[-7:MST]");
  }

  /** A node without one of the four elements raises `AttributeError` as soon as the
      loop looks that element up, and one of them with no children `IndexError`. */
  lemma MissingElementRaises(tx: StmtTrn)
    ensures tx.dtposted.Missing? ==> ReadStmtTrn(tx) == Err(AttributeError)
    ensures tx.dtposted.Element? && tx.dtposted.contents == [] ==> ReadStmtTrn(tx) == Err(IndexError)
    ensures ReadStmtTrn(tx).Ok? ==>
      tx.dtposted.Element? && tx.trntype.Element? && tx.trnamt.Element? && tx.name.Element?
      && tx.dtposted.contents != [] && tx.trntype.contents != [] && tx.trnamt.contents != [] && tx.name.contents != []
  {
  }

  /** A node read without an exception carries its posted timestamp, its amount and its
      name, each taken from the element's first child with the surrounding whitespace
      removed. */
  lemma ReadStmtTrnFields(tx: StmtTrn)
    requires ReadStmtTrn(tx).Ok?
    ensures tx.dtposted.Element? && tx.dtposted.contents != [] && tx.trnamt.Element? && tx.trnamt.contents != []
    ensures tx.name.Element? && tx.name.contents != []
    ensures Ok(ReadStmtTrn(tx).value.date) == PostedDate(Strip(tx.dtposted.contents[0]))
    ensures Some(ReadStmtTrn(tx).value.amount) == ParseFloat(Strip(tx.trnamt.contents[0]))
    ensures ReadStmtTrn(tx).value.description == Strip(tx.name.contents[0])
  {
    var posted, amount, name := ReadPosted(tx), ReadAmount(tx), StrippedText(tx.name);
    assert posted.Ok? && amount.Ok? && name.Ok?;
    assert ReadStmtTrn(tx) == Ok(Draft(posted.value, name.value, amount.value));
    assert StrippedText(tx.dtposted).Ok? && StrippedText(tx.trnamt).Ok?;
  }
}
