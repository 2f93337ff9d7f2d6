/** The institution-specific reader of one delimited statement row (parser.py). */
module StatementParser {
  import opened Outcomes
  import opened PyText
  import opened Calendar

  /** A column profile: which field holds the date and how it is written, which holds
      the description, which holds the amount, and whether the institution writes
      spending as positive amounts that must be negated. Built by `Parser(...)`, which
      only stores its five arguments. */
  datatype Profile = Profile(dateField: int, dateFormat: string, descriptionField: int,
                             amountField: int, amountNegated: bool)

  /** The dictionary `{"date": ..., "description": ..., "amount": ...}` a successful parse
      returns; the empty dictionary returned on failure is `None`. */
  datatype Draft = Draft(date: DateTime, description: string, amount: real)

  /** `Parser.parse(row)`. The amount field is read first, then the date, then the
      description; an index outside the row (`IndexError`) or a text that `float()` or
      `strptime` rejects (`ValueError`) gives the empty result instead of raising. */
  function Parse(p: Profile, row: seq<string>): Option<Draft> {
    match ParseAmount(p, row)
    case None => None
    case Some(amount) =>
      match ParseDate(p, row)
      case None => None
      case Some(date) =>
        match PyIndex(row, p.descriptionField)
        case None => None
        case Some(description) => Some(Draft(date, description, amount))
  }

  /** `float(row[amount_field])`, negated when the profile says so. */
  function ParseAmount(p: Profile, row: seq<string>): Option<real> {
    match PyIndex(row, p.amountField)
    case None => None
    case Some(text) =>
      match ParseFloat(text)
      case None => None
      case Some(v) => Some(Signed(p.amountNegated, v))
  }

  /** `strptime(row[date_field], date_format)`. */
  function ParseDate(p: Profile, row: seq<string>): Option<DateTime> {
    match PyIndex(row, p.dateField)
    case None => None
    case Some(text) => Strptime(text, p.dateFormat)
  }

  predicate HasIndex(row: seq<string>, i: int) {
    -|row| <= i < |row|
  }

  /** `row[i]` for an index Python accepts. */
  function Cell(row: seq<string>, i: int): string
    requires HasIndex(row, i)
  {
    if i >= 0 then row[i] else row[|row| + i]
  }

  /** A parse succeeds exactly when all three fields exist, the amount field is a number
      and the date field matches the profile's format. */
  lemma ParseSucceedsIff(p: Profile, row: seq<string>)
    ensures Parse(p, row).Some? <==>
      HasIndex(row, p.amountField) && HasIndex(row, p.dateField) && HasIndex(row, p.descriptionField)
      && ParseFloat(Cell(row, p.amountField)).Some?
      && Strptime(Cell(row, p.dateField), p.dateFormat).Some?
  {
    AmountAndDateIff(p, row);
    CellIndex(row, p.descriptionField);
  }

  lemma AmountAndDateIff(p: Profile, row: seq<string>)
    ensures ParseAmount(p, row).Some? <==>
      HasIndex(row, p.amountField) && ParseFloat(Cell(row, p.amountField)).Some?
    ensures ParseDate(p, row).Some? <==>
      HasIndex(row, p.dateField) && Strptime(Cell(row, p.dateField), p.dateFormat).Some?
  {
    CellIndex(row, p.amountField);
    CellIndex(row, p.dateField);
  }

  /** Python indexing yields the cell exactly when the index is in range. */
  lemma CellIndex(row: seq<string>, i: int)
    ensures PyIndex(row, i) == if HasIndex(row, i) then Some(Cell(row, i)) else None
  {
  }

  /** What a successful parse holds: the parsed date, the description field exactly as
      it is in the row (no trimming, no case change), and the parsed amount, negated
      when the profile says so. */
  lemma ParseFields(p: Profile, row: seq<string>)
    requires Parse(p, row).Some?
    ensures HasIndex(row, p.amountField) && HasIndex(row, p.dateField) && HasIndex(row, p.descriptionField)
    ensures Some(Parse(p, row).value.date) == Strptime(Cell(row, p.dateField), p.dateFormat)
    ensures Parse(p, row).value.description == Cell(row, p.descriptionField)
    ensures var v := ParseFloat(Cell(row, p.amountField)).value;
      Parse(p, row).value.amount == Signed(p.amountNegated, v)
  {
  }

  /** A row too short for any of the profile's (non-negative) columns gives the empty
      result. */
  lemma ShortRowIsEmpty(p: Profile, row: seq<string>)
    requires 0 <= p.dateField && 0 <= p.descriptionField && 0 <= p.amountField
    requires |row| <= p.dateField || |row| <= p.descriptionField || |row| <= p.amountField
    ensures Parse(p, row) == None
  {
  }

  /** A non-numeric amount field, or a date field that does not match the format, gives
      the empty result whatever the other fields hold. */
  lemma MalformedFieldIsEmpty(p: Profile, row: seq<string>)
    requires HasIndex(row, p.amountField) && HasIndex(row, p.dateField)
    requires ParseFloat(Cell(row, p.amountField)) == None
          || Strptime(Cell(row, p.dateField), p.dateFormat) == None
    ensures Parse(p, row) == None
  {
  }

  /** Negating the profile negates the amount and changes nothing else. */
  lemma NegationFlipsAmount(p: Profile, row: seq<string>)
    requires Parse(p, row).Some?
    ensures var q := p.(amountNegated := !p.amountNegated);
      Parse(q, row).Some? && Parse(q, row).value == Parse(p, row).value.(amount := -Parse(p, row).value.amount)
  {
    var q := p.(amountNegated := !p.amountNegated);
    var d := Parse(p, row).value;
    ParseParts(p, row);
    NegatedAmount(p, row);
    assert ParseDate(q, row) == ParseDate(p, row);
    ParseOf(q, row, d.date, d.description, -d.amount);
  }

  lemma ParseParts(p: Profile, row: seq<string>)
    requires Parse(p, row).Some?
    ensures var d := Parse(p, row).value;
      ParseAmount(p, row) == Some(d.amount) && ParseDate(p, row) == Some(d.date)
      && PyIndex(row, p.descriptionField) == Some(d.description)
  {
  }

  lemma ParseOf(p: Profile, row: seq<string>, date: DateTime, description: string, amount: real)
    requires ParseAmount(p, row) == Some(amount) && ParseDate(p, row) == Some(date)
    requires PyIndex(row, p.descriptionField) == Some(description)
    ensures Parse(p, row) == Some(Draft(date, description, amount))
  {
  }

  lemma NegatedAmount(p: Profile, row: seq<string>)
    requires ParseAmount(p, row).Some?
    ensures ParseAmount(p.(amountNegated := !p.amountNegated), row) == Some(-ParseAmount(p, row).value)
  {
    var q := p.(amountNegated := !p.amountNegated);
    var v := ParseFloat(PyIndex(row, p.amountField).value).value;
    assert ParseAmount(p, row) == Some(Signed(p.amountNegated, v));
    assert ParseAmount(q, row) == Some(Signed(q.amountNegated, v));
    assert Signed(q.amountNegated, v) == -Signed(p.amountNegated, v);
  }

  /** A row whose date column holds a zero-padded `MM/DD/YYYY` date parses, under a
      `%m/%d/%Y` profile, to midnight of that date, the description column and the
      amount column's number (negated when the profile says so). */
  lemma ParseSlashRow(p: Profile, row: seq<string>, d: Date, v: real)
    requires p.dateFormat == SlashFormat && ValidDate(d)
    requires HasIndex(row, p.amountField) && HasIndex(row, p.dateField) && HasIndex(row, p.descriptionField)
    requires Cell(row, p.dateField) == FormatSlash(d) && ParseFloat(Cell(row, p.amountField)) == Some(v)
    ensures Parse(p, row) == Some(Draft(DateTime(d.year, d.month, d.day, 0, 0, 0), Cell(row, p.descriptionField),
                                        Signed(p.amountNegated, v)))
  {
    AmountOf(p, row, v);
    SlashDateOf(p, row, d);
  }

  lemma AmountOf(p: Profile, row: seq<string>, v: real)
    requires HasIndex(row, p.amountField) && ParseFloat(Cell(row, p.amountField)) == Some(v)
    ensures ParseAmount(p, row) == Some(Signed(p.amountNegated, v))
  {
    assert PyIndex(row, p.amountField) == Some(Cell(row, p.amountField));
  }

  lemma SlashDateOf(p: Profile, row: seq<string>, d: Date)
    requires ValidDate(d) && p.dateFormat == SlashFormat
    requires HasIndex(row, p.dateField) && Cell(row, p.dateField) == FormatSlash(d)
    ensures ParseDate(p, row) == Some(DateTime(d.year, d.month, d.day, 0, 0, 0))
  {
    SlashRoundTrip(d);
  }

  /** A money amount written with two decimals, as statements write them, reads back
      as that number of cents divided by 100. */
  lemma CentsCell(row: seq<string>, i: int, cents: int)
    requires HasIndex(row, i) && Cell(row, i) == FormatCents(cents)
    ensures ParseFloat(Cell(row, i)) == Some(CentsValue(cents))
  {
    FloatOfCents(cents);
  }

  // ---------------------------------------------------------------------------
  // The profile table `parsers`
  // ---------------------------------------------------------------------------

  const Amex := Profile(0, "%m/%d/%Y %a", 2, 7, true)
  const Bofa := Profile(0, SlashFormat, 1, 2, false)
  const Chase := Profile(1, SlashFormat, 3, 4, false)

  /** `parsers[name]`: an institution name outside the table raises `KeyError`. */
  function ProfileFor(name: string): Result<Profile> {
    if name == "amex" then Ok(Amex)
    else if name == "bofa" then Ok(Bofa)
    else if name == "chase" then Ok(Chase)
    else Err(KeyError)
  }

  /** The table's columns: bofa reads date/description/amount from 0/1/2, chase from
      1/3/4, both as `%m/%d/%Y` and not negated; amex reads 0/2/7, its date followed by
      a weekday, and negates. No other name has a profile. */
  lemma ProfileTable(name: string)
    ensures ProfileFor(name).Ok? <==> name in {"amex", "bofa", "chase"}
    ensures name == "bofa" ==> ProfileFor(name) == Ok(Profile(0, "%m/%d/%Y", 1, 2, false))
    ensures name == "chase" ==> ProfileFor(name) == Ok(Profile(1, "%m/%d/%Y", 3, 4, false))
    ensures name == "amex" ==> ProfileFor(name) == Ok(Profile(0, "%m/%d/%Y %a", 2, 7, true))
  {
  }

  /** A Bank of America row `10/31/2013, Starbucks Coffee Shop, -4.50` parses to
      October 31st 2013, the description unchanged and -4.50. */
  lemma BofaExample()
    ensures Parse(Bofa, ["10/31/2013", "Starbucks Coffee Shop", "-4.50"])
         == Some(Draft(DateTime(2013, 10, 31, 0, 0, 0), "Starbucks Coffee Shop", -4.5))
  {
    var row := ["10/31/2013", "Starbucks Coffee Shop", "-4.50"];
    assert FormatSlash(Date(2013, 10, 31)) == "10/31/2013";
    assert FormatCents(-450) == "-4.50";
    CentsCell(row, 2, -450);
    ParseSlashRow(Bofa, row, Date(2013, 10, 31), -4.5);
  }
}
