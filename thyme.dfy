/** The review commands of the interactive shell thyme.py: the month ranges the
    commands work on, `list` and the numbering it leaves behind, `updcat`, `bycat`
    and `acct`. The store the commands query is passed in: its answers are inputs. */
module Review {
  import opened Outcomes
  import opened PyText
  import opened Calendar

  // ---------------------------------------------------------------------------
  // Month ranges
  // ---------------------------------------------------------------------------

  /** `start_of_next_month(year, month)`: the first of the following month, wrapping
      December into January of the next year. `date()` raises `ValueError` when that
      day does not exist (after December 9999, or for a month beyond 12), and
      `OverflowError` when the month after `month` does not fit a C `int`. */
  function StartOfNextMonth(year: int, month: int): (r: Result<Date>)
    ensures r.Ok? ==> ValidDate(r.value) && r.value.day == 1
  {
    if month == 12 then MakeDate(year + 1, 1, 1) else MakeDate(year, month + 1, 1)
  }

  /** The first day of the month after `month` is the least date after every day of
      that month: a date lies before it exactly when it lies in that month or earlier. */
  lemma NextMonthBound(year: int, month: int)
    requires 1 <= month <= 12 && MinYear <= year <= MaxYear && !(year == MaxYear && month == 12)
    ensures StartOfNextMonth(year, month).Ok?
    ensures forall d :: ValidDate(d) ==>
      (Before(d, StartOfNextMonth(year, month).value) <==> d.year < year || (d.year == year && d.month <= month))
  {
  }

  /** `[date(year, month, 1), start_of_next_month(year, month))`. */
  function MonthRange(year: int, month: int): (r: Result<(Date, Date)>)
    ensures r.Ok? ==> ValidDate(r.value.0) && ValidDate(r.value.1)
    ensures r.Err? ==> r.error == ValueError || r.error == OverflowError
  {
    match MakeDate(year, month, 1)
    case Err(e) => Err(e)
    case Ok(start) =>
      match StartOfNextMonth(year, month)
      case Err(e) => Err(e)
      case Ok(end) => Ok((start, end))
  }

  /** `get_start_end(args)` with `today` standing for `date.today()`: the current month
      for empty arguments, otherwise the month `int(args)` of the current year. */
  function GetStartEnd(args: string, today: Date): (r: Result<(Date, Date)>)
    ensures r.Ok? ==> ValidDate(r.value.0) && ValidDate(r.value.1)
    ensures r.Err? ==> r.error == ValueError || r.error == OverflowError
  {
    if args == [] then MonthRange(today.year, today.month)
    else
      match ParseInt(args)
      case None => Err(ValueError)
      case Some(m) => MonthRange(today.year, m)
  }

  /** A month range exists for every month 1..12 except December of the last year,
      starts on the first of the month, ends after it, and holds exactly the days of
      that month. Anything else raises `ValueError`, or `OverflowError` when the year
      or the month does not fit a C `int`. */
  lemma MonthRangeCovers(year: int, month: int)
    ensures MonthRange(year, month).Ok? <==>
      1 <= month <= 12 && MinYear <= year <= MaxYear && !(year == MaxYear && month == 12)
    ensures MonthRange(year, month).Err? ==>
      MonthRange(year, month).error == if CInt(year) && CInt(month) then ValueError else OverflowError
    ensures MonthRange(year, month).Ok? ==>
      var (start, end) := MonthRange(year, month).value;
      start == Date(year, month, 1) && Before(start, end)
      && forall d :: ValidDate(d) ==> (InRange(d, start, end) <==> d.year == year && d.month == month)
  {
    if 1 <= month <= 12 && MinYear <= year <= MaxYear && !(year == MaxYear && month == 12) {
      NextMonthBound(year, month);
    }
  }

  /** `get_start_end` picks the current month for empty arguments and the month the
      arguments spell otherwise. Text that is not an integer raises `ValueError`. For
      month `m`, a range exists exactly when `m` is 1..12 (and not December of the last
      year); it starts on the first of that month and holds exactly that month's days
      of the current year. Any other month raises `ValueError`, or `OverflowError` when
      it does not fit a C `int`. */
  lemma GetStartEndCovers(args: string, today: Date)
    requires ValidDate(today)
    ensures args != [] && ParseInt(args).None? ==> GetStartEnd(args, today) == Err(ValueError)
    ensures var m := if args == [] then today.month else ParseInt(args).GetOr(0);
      var r := GetStartEnd(args, today);
      (args == [] || ParseInt(args).Some?) ==>
        (r.Ok? <==> 1 <= m <= 12 && !(today.year == MaxYear && m == 12))
        && (r.Err? ==> r.error == if CInt(m) then ValueError else OverflowError)
        && (r.Ok? ==>
              r.value.0 == Date(today.year, m, 1)
              && forall d :: ValidDate(d) ==> (InRange(d, r.value.0, r.value.1) <==> d.year == today.year && d.month == m))
  {
    if args == [] {
      MonthRangeCovers(today.year, today.month);
    } else if ParseInt(args).Some? {
      MonthRangeCovers(today.year, ParseInt(args).value);
    }
  }

  /** In every month but the very last, the range for empty arguments holds today. */
  lemma CurrentMonthHoldsToday(today: Date)
    requires ValidDate(today) && !(today.year == MaxYear && today.month == 12)
    ensures GetStartEnd("", today).Ok? && InRange(today, GetStartEnd("", today).value.0, GetStartEnd("", today).value.1)
  {
    MonthRangeCovers(today.year, today.month);
  }

  // ---------------------------------------------------------------------------
  // list
  // ---------------------------------------------------------------------------

  /** What `list` asks the store for: the month text and an optional category filter. */
  datatype ListQuery = ListQuery(time: string, categoryFilter: Option<string>)

  /** `do_list`'s reading of its arguments. One token is the month and there is no
      filter; otherwise the second token is the month and the first, stripped and
      lower-cased, the filter, so that no token at all raises `IndexError`. */
  function ListArgs(args: string): (r: Result<ListQuery>)
    ensures r.Ok? <==> |Split(args)| >= 1
  {
    var ws := Split(args);
    if |ws| == 1 then Ok(ListQuery(ws[0], None))
    else if |ws| < 2 then Err(IndexError)
    else Ok(ListQuery(ws[1], Some(Lower(Strip(ws[0])))))
  }

  /** `list 10`: the month and no filter. */
  lemma ListOneToken(t: string)
    requires IsToken(t)
    ensures ListArgs(t) == Ok(ListQuery(t, None))
  {
    SplitJoin([t]);
  }

  /** `list groceries 10` (and anything after a second token): the month is the
      second token and the filter the first, lower-cased. */
  lemma ListTwoTokens(c: string, t: string, more: seq<string>)
    requires IsToken(c) && IsToken(t) && forall i :: 0 <= i < |more| ==> IsToken(more[i])
    ensures ListArgs(JoinSpaces([c, t] + more)) == Ok(ListQuery(t, Some(Lower(c))))
  {
    var ws := [c, t] + more;
    TwoTokensThen(c, t, more);
    SplitJoin(ws);
    StripNoSpace(c);
    ListArgsOf(JoinSpaces(ws), ws);
  }

  lemma TwoTokensThen(c: string, t: string, more: seq<string>)
    requires IsToken(c) && IsToken(t) && forall i :: 0 <= i < |more| ==> IsToken(more[i])
    ensures var ws := [c, t] + more;
      |ws| >= 2 && ws[0] == c && ws[1] == t && forall i :: 0 <= i < |ws| ==> IsToken(ws[i])
  {
    var ws := [c, t] + more;
    forall i | 0 <= i < |ws| ensures IsToken(ws[i]) {
      if i >= 2 {
        assert ws[i] == more[i - 2];
      }
    }
  }

  lemma ListArgsOf(args: string, ws: seq<string>)
    requires Split(args) == ws && |ws| >= 2
    ensures ListArgs(args) == Ok(ListQuery(ws[1], Some(Lower(Strip(ws[0])))))
  {
  }

  /** A bare `list`, despite the help text's promise of a default month, raises
      `IndexError`. */
  lemma ListWithoutArguments(args: string)
    requires AllSpace(args)
    ensures ListArgs(args) == Err(IndexError)
  {
    LStripAllSpace(args);
  }

  /** One transaction as `list` receives it: its key and its amount (the columns it
      only prints are not modelled). */
  datatype ListedTx = ListedTx(id: int, amount: real)

  /** The numbers `list` hands out: `i` for the `i`-th listed transaction, counting
      from 1, mapped to that transaction's key. */
  function Numbering(txs: seq<ListedTx>): map<int, int> {
    if txs == [] then map[]
    else Numbering(txs[..|txs| - 1])[|txs| := txs[|txs| - 1].id]
  }

  function Total(txs: seq<ListedTx>): real {
    if txs == [] then 0.0 else Total(txs[..|txs| - 1]) + txs[|txs| - 1].amount
  }

  /** The numbering covers exactly 1..n, number `k` standing for the `k`-th listed
      transaction. */
  lemma {:induction false} NumberingIndexes(txs: seq<ListedTx>)
    ensures forall k :: k in Numbering(txs) <==> 1 <= k <= |txs|
    ensures forall k :: 1 <= k <= |txs| ==> Numbering(txs)[k] == txs[k - 1].id
  {
    if txs != [] {
      var init := txs[..|txs| - 1];
      NumberingIndexes(init);
      assert forall k :: 0 <= k < |init| ==> init[k] == txs[k];
    }
  }

  /** Numbering one more transaction adds, or replaces, one entry. */
  lemma NumberingStep(before: map<int, int>, txs: seq<ListedTx>, i: int)
    requires 0 <= i < |txs|
    ensures (before + Numbering(txs[..i]))[i + 1 := txs[i].id] == before + Numbering(txs[..i + 1])
  {
    var t := txs[..i + 1];
    assert t[..|t| - 1] == txs[..i] && t[|t| - 1] == txs[i];
  }

  /** What `list` queries: its arguments read, then the month range of its month token. */
  function ListRange(args: string, today: Date): (r: Result<(Date, Date, Option<string>)>)
    requires ValidDate(today)
    ensures r.Ok? ==> ValidDate(r.value.0) && Before(r.value.0, r.value.1)
  {
    match ListArgs(args)
    case Err(e) => Err(e)
    case Ok(q) =>
      match GetStartEnd(q.time, today)
      case Err(e) =>
        Err(e)
      case Ok(range) =>
        MonthRangeOfToken(q.time, today);
        Ok((range.0, range.1, q.categoryFilter))
  }

  lemma MonthRangeOfToken(time: string, today: Date)
    requires ValidDate(today) && GetStartEnd(time, today).Ok?
    ensures Before(GetStartEnd(time, today).value.0, GetStartEnd(time, today).value.1)
  {
    var m := if time == [] then today.month else ParseInt(time).value;
    MonthRangeCovers(today.year, m);
  }

  // ---------------------------------------------------------------------------
  // updcat
  // ---------------------------------------------------------------------------

  /** What `updcat` does: report an unknown category, or re-file one transaction. */
  datatype CategoryUpdate = UnknownCategory(name: string) | UpdateCategory(transactionId: int, categoryId: int)

  /** An id that Python treats as false: no id at all, or 0. */
  predicate Falsy(id: Option<int>) {
    id.None? || id.value == 0
  }

  /** The shell, whose state is the numbering the last `list` left behind. */
  class Thyme {
    var txIdMap: map<int, int>

    constructor ()
      ensures txIdMap == map[]
    {
      txIdMap := map[];
    }

    /** `do_list(args)`, with `readTxnForTime` standing for the store's
        `read_txn_for_time`. The listed transactions are numbered from 1 into the map
        (entries from an earlier, longer listing stay), and the total of their
        amounts is what the last line shows. An exception leaves the map alone. */
    method DoList(args: string, today: Date, readTxnForTime: (Date, Date, Option<string>) -> seq<ListedTx>)
      returns (r: Result<real>)
      requires ValidDate(today)
      modifies this
      ensures ListRange(args, today).Err? ==> r == Err(ListRange(args, today).error) && txIdMap == old(txIdMap)
      ensures ListRange(args, today).Ok? ==>
        var (start, end, filter) := ListRange(args, today).value;
        var txs := readTxnForTime(start, end, filter);
        r == Ok(Total(txs)) && txIdMap == old(txIdMap) + Numbering(txs)
    {
      var range := ListRange(args, today);
      if range.Err? {
        return Err(range.error);
      }
      var (start, end, filter) := range.value;
      var sum := NumberListing(readTxnForTime(start, end, filter));
      return Ok(sum);
    }

    /** The loop of `do_list`: numbers the transactions from 1 into the map and adds
        up their amounts. */
    method NumberListing(transactions: seq<ListedTx>) returns (sum: real)
      modifies this
      ensures txIdMap == old(txIdMap) + Numbering(transactions) && sum == Total(transactions)
    {
      var i := 0;
      sum := 0.0;
      while i < |transactions|
        invariant 0 <= i <= |transactions|
        invariant txIdMap == old(txIdMap) + Numbering(transactions[..i])
        invariant sum == Total(transactions[..i])
      {
        var tx := transactions[i];
        assert transactions[..i + 1][..i] == transactions[..i] && transactions[..i + 1][i] == tx;
        NumberingStep(old(txIdMap), transactions, i);
        i := i + 1;
        txIdMap := txIdMap[i := tx.id];
        sum := sum + tx.amount;
      }
      assert transactions[..i] == transactions;
    }

    /** `do_updcat(args)`, with `findCategoryId` standing for the store's
        `find_category_id`. Exactly two tokens are required (`ValueError` otherwise).
        The category, stripped and lower-cased, is looked up first: when it is unknown
        nothing is updated, whatever the transaction number says. Otherwise the number
        must be an integer (`ValueError`) that the last listing handed out
        (`KeyError`), and the transaction it stands for is re-filed. */
    function UpdCat(args: string, findCategoryId: string -> Option<int>): (r: Result<CategoryUpdate>)
      reads this
      ensures r.Ok? <==> |Split(args)| == 2 && (Falsy(findCategoryId(Lower(Split(args)[1])))
                         || exists k :: ParseInt(Split(args)[0]) == Some(k) && k in txIdMap)
      ensures |Split(args)| != 2 ==> r == Err(ValueError)
      ensures r.Err? && |Split(args)| == 2 ==>
        r.error == if ParseInt(Split(args)[0]).None? then ValueError else KeyError
      ensures r.Ok? && r.value.UpdateCategory? ==>
        r.value.categoryId != 0 && findCategoryId(Lower(Split(args)[1])) == Some(r.value.categoryId)
        && exists k :: k in txIdMap && ParseInt(Split(args)[0]) == Some(k) && txIdMap[k] == r.value.transactionId
    {
      var ws := Split(args);
      if |ws| != 2 then Err(ValueError)
      else
        var trimmed := Lower(Strip(ws[1]));
        StripNoSpace(ws[1]);
        var categoryId := findCategoryId(trimmed);
        if Falsy(categoryId) then Ok(UnknownCategory(trimmed))
        else
          match ParseInt(ws[0])
          case None => Err(ValueError)
          case Some(k) => if k in txIdMap then Ok(UpdateCategory(txIdMap[k], categoryId.value)) else Err(KeyError)
    }
  }

  /** Right after `list`, `updcat k name` re-files the `k`-th listed transaction. */
  lemma UpdCatAfterList(t: Thyme, before: map<int, int>, txs: seq<ListedTx>, args: string,
                        txid: string, k: int, name: string, findCategoryId: string -> Option<int>)
    requires t.txIdMap == before + Numbering(txs)
    requires Split(args) == [txid, name] && ParseInt(txid) == Some(k) && 1 <= k <= |txs|
    requires !Falsy(findCategoryId(Lower(name)))
    ensures t.UpdCat(args, findCategoryId) == Ok(UpdateCategory(txs[k - 1].id, findCategoryId(Lower(name)).value))
  {
    ListedNumber(before, txs, k);
    UpdCatOf(t, args, txid, name, findCategoryId);
  }

  /** Right after `list`, number `k` stands for the `k`-th listed transaction. */
  lemma ListedNumber(before: map<int, int>, txs: seq<ListedTx>, k: int)
    requires 1 <= k <= |txs|
    ensures k in before + Numbering(txs) && (before + Numbering(txs))[k] == txs[k - 1].id
  {
    NumberingIndexes(txs);
  }

  /** `updcat` on two tokens. */
  lemma UpdCatOf(t: Thyme, args: string, txid: string, name: string, findCategoryId: string -> Option<int>)
    requires Split(args) == [txid, name]
    ensures var categoryId := findCategoryId(Lower(name));
      t.UpdCat(args, findCategoryId)
        == if Falsy(categoryId) then Ok(UnknownCategory(Lower(name)))
           else if ParseInt(txid).None? then Err(ValueError)
           else if ParseInt(txid).value in t.txIdMap then Ok(UpdateCategory(t.txIdMap[ParseInt(txid).value], categoryId.value))
           else Err(KeyError)
  {
    var ws := Split(args);
    assert ws[0] == txid && ws[1] == name && NoSpace(ws[1]);
    StripNoSpace(name);
    assert Lower(Strip(ws[1])) == Lower(name);
  }

  /** An unknown category is reported without touching any transaction, even when the
      transaction number is not a number. */
  lemma UpdCatUnknownCategory(t: Thyme, args: string, txid: string, name: string,
                              findCategoryId: string -> Option<int>)
    requires Split(args) == [txid, name] && Falsy(findCategoryId(Lower(name)))
    ensures t.UpdCat(args, findCategoryId) == Ok(UnknownCategory(Lower(name)))
  {
    UpdCatOf(t, args, txid, name, findCategoryId);
  }

  /** A number an earlier, longer listing handed out and the last listing did not
      still stands for the transaction of that earlier listing. */
  lemma StaleNumber(before: map<int, int>, txs: seq<ListedTx>, k: int)
    requires k in before && !(1 <= k <= |txs|)
    ensures k in before + Numbering(txs) && (before + Numbering(txs))[k] == before[k]
  {
    NumberingIndexes(txs);
  }

  // ---------------------------------------------------------------------------
  // bycat
  // ---------------------------------------------------------------------------

  /** A category as the store lists it, and one category's total for the range. */
  datatype Category = Category(name: string, budget: int)
  datatype CategoryTotal = CategoryTotal(name: string, amount: real)

  /** One printed line of `bycat`: the category, its total, its budget, the headroom
      `budget + total` and whether it is shown green. */
  datatype BudgetLine = BudgetLine(name: string, amount: real, budget: int, headroom: real, green: bool)

  datatype ByCatReport = ByCatReport(lines: seq<BudgetLine>, total: real, totalBudget: int)

  /** `budget_map`: each category name to its budget, a later entry for a name
      replacing an earlier one. */
  function BudgetMap(cats: seq<Category>): map<string, int> {
    if cats == [] then map[]
    else BudgetMap(cats[..|cats| - 1])[cats[|cats| - 1].name := cats[|cats| - 1].budget]
  }

  /** `total_budget`: the budgets of all categories added up. */
  function TotalBudget(cats: seq<Category>): int {
    if cats == [] then 0 else TotalBudget(cats[..|cats| - 1]) + cats[|cats| - 1].budget
  }

  /** Transfers between accounts and pay cheques are not spending. */
  predicate Excluded(tx: CategoryTotal) {
    Title(tx.name) == "Transfer" || Title(tx.name) == "Paycheck"
  }

  function LineFor(tx: CategoryTotal, budget: int): BudgetLine {
    var headroom := budget as real + tx.amount;
    BudgetLine(tx.name, tx.amount, budget, headroom, headroom > 0.0)
  }

  /** The lines and the running sum of spending over `txs`, in order; a counted
      category without a budget raises `KeyError`. */
  function Lines(txs: seq<CategoryTotal>, budgets: map<string, int>): Result<(seq<BudgetLine>, real)> {
    if txs == [] then Ok(([], 0.0))
    else
      match Lines(txs[..|txs| - 1], budgets)
      case Err(e) => Err(e)
      case Ok(acc) =>
        var tx := txs[|txs| - 1];
        if Excluded(tx) then Ok(acc)
        else if tx.name !in budgets then Err(KeyError)
        else Ok((acc.0 + [LineFor(tx, budgets[tx.name])], acc.1 + tx.amount))
  }

  /** The only exception the lines raise is `KeyError`. */
  lemma {:induction false} LinesRaiseKeyError(txs: seq<CategoryTotal>, budgets: map<string, int>)
    ensures Lines(txs, budgets).Err? ==> Lines(txs, budgets).error == KeyError
    decreases |txs|
  {
    if txs != [] {
      LinesRaiseKeyError(txs[..|txs| - 1], budgets);
    }
  }

  /** `do_bycat(args)`, with `readByCategory` standing for the store's
      `read_txn_for_time_by_category` and `categories` for what `list_categories`
      returns. */
  function ByCat(args: string, today: Date, readByCategory: (Date, Date) -> seq<CategoryTotal>,
                 categories: seq<Category>): (r: Result<ByCatReport>)
    requires ValidDate(today)
    ensures r.Err? ==> r.error == ValueError || r.error == OverflowError || r.error == KeyError
  {
    match GetStartEnd(args, today)
    case Err(e) => Err(e)
    case Ok(range) =>
      LinesRaiseKeyError(readByCategory(range.0, range.1), BudgetMap(categories));
      match Lines(readByCategory(range.0, range.1), BudgetMap(categories))
      case Err(e) => Err(e)
      case Ok(acc) => Ok(ByCatReport(acc.0, acc.1, TotalBudget(categories)))
  }

  /** The counted categories, in order. */
  function Counted(txs: seq<CategoryTotal>): seq<CategoryTotal> {
    if txs == [] then []
    else Counted(txs[..|txs| - 1]) + (if Excluded(txs[|txs| - 1]) then [] else [txs[|txs| - 1]])
  }

  function AmountSum(txs: seq<CategoryTotal>): real {
    if txs == [] then 0.0 else AmountSum(txs[..|txs| - 1]) + txs[|txs| - 1].amount
  }

  /** A category counts as a transfer or a pay cheque exactly when its name spells
      `transfer` or `paycheck` in any mixture of cases. */
  lemma ExcludedNames(tx: CategoryTotal)
    ensures Excluded(tx) <==> Lower(tx.name) == "transfer" || Lower(tx.name) == "paycheck"
  {
    TransferTitle(tx.name);
    PaycheckTitle(tx.name);
  }

  lemma TransferTitle(s: string)
    ensures Title(s) == "Transfer" <==> Lower(s) == "transfer"
  {
    TransferWord();
    TitleEqualsWord(s, "Transfer");
  }

  lemma TransferWord()
    ensures IsTitleWord("Transfer") && Lower("Transfer") == "transfer"
  {
    TransferShape();
    assert Lower("Transfer") == "transfer";
  }

  lemma TransferShape()
    ensures IsTitleWord("Transfer")
  {
    var w := "Transfer";
    assert w[1..] == "ransfer";
  }

  lemma PaycheckTitle(s: string)
    ensures Title(s) == "Paycheck" <==> Lower(s) == "paycheck"
  {
    PaycheckWord();
    TitleEqualsWord(s, "Paycheck");
  }

  lemma PaycheckWord()
    ensures IsTitleWord("Paycheck") && Lower("Paycheck") == "paycheck"
  {
    PaycheckShape();
    assert Lower("Paycheck") == "paycheck";
  }

  lemma PaycheckShape()
    ensures IsTitleWord("Paycheck")
  {
    var w := "Paycheck";
    assert w[1..] == "aycheck";
  }

  /** `bycat` goes through exactly when every counted category has a budget. */
  lemma {:induction false} LinesSucceed(txs: seq<CategoryTotal>, budgets: map<string, int>)
    ensures Lines(txs, budgets).Ok? <==> forall k :: 0 <= k < |txs| && !Excluded(txs[k]) ==> txs[k].name in budgets
    decreases |txs|
  {
    if txs != [] {
      var init := txs[..|txs| - 1];
      LinesSucceed(init, budgets);
      assert forall k :: 0 <= k < |init| ==> init[k] == txs[k];
    }
  }

  predicate HasBudgets(txs: seq<CategoryTotal>, budgets: map<string, int>) {
    forall k :: 0 <= k < |txs| ==> txs[k].name in budgets
  }

  /** One line per category, in order. */
  function LinesOf(txs: seq<CategoryTotal>, budgets: map<string, int>): seq<BudgetLine>
    requires HasBudgets(txs, budgets)
  {
    if txs == [] then []
    else
      var tx := txs[|txs| - 1];
      LinesOf(txs[..|txs| - 1], budgets) + [LineFor(tx, budgets[tx.name])]
  }

  /** When it goes through, `bycat` prints one line per counted category, in order,
      and its sum is the spending over the counted categories only. */
  lemma {:induction false} LinesMeaning(txs: seq<CategoryTotal>, budgets: map<string, int>)
    requires Lines(txs, budgets).Ok?
    ensures var (lines, sum) := Lines(txs, budgets).value;
      var counted := Counted(txs);
      sum == AmountSum(counted) && HasBudgets(counted, budgets) && lines == LinesOf(counted, budgets)
    decreases |txs|
  {
    if txs != [] {
      var init, tx := txs[..|txs| - 1], txs[|txs| - 1];
      LinesMeaning(init, budgets);
      var (lines, sum) := Lines(init, budgets).value;
      if Excluded(tx) {
        assert Counted(txs) == Counted(init);
        assert Lines(txs, budgets) == Lines(init, budgets);
      } else {
        LineStep(init, tx, budgets, lines, sum);
        assert txs == init + [tx];
        LinesOfSnoc(Counted(init), tx, budgets);
      }
    }
  }

  lemma LinesOfSnoc(c: seq<CategoryTotal>, tx: CategoryTotal, budgets: map<string, int>)
    requires HasBudgets(c, budgets) && tx.name in budgets
    ensures HasBudgets(c + [tx], budgets)
    ensures LinesOf(c + [tx], budgets) == LinesOf(c, budgets) + [LineFor(tx, budgets[tx.name])]
  {
    var d := c + [tx];
    assert d[..|d| - 1] == c && d[|d| - 1] == tx;
    forall k | 0 <= k < |d| ensures d[k].name in budgets {
      if k < |c| {
        assert d[k] == c[k];
      }
    }
  }

  /** Each line carries its category's name, total and budget, the headroom
      `budget + total`, and is green exactly when the headroom is above zero. */
  lemma {:induction false} LinesOfMeaning(txs: seq<CategoryTotal>, budgets: map<string, int>)
    requires HasBudgets(txs, budgets)
    ensures var lines := LinesOf(txs, budgets);
      |lines| == |txs|
      && forall k :: 0 <= k < |lines| ==>
        lines[k].name == txs[k].name && lines[k].amount == txs[k].amount
        && lines[k].budget == budgets[txs[k].name]
        && lines[k].headroom == lines[k].budget as real + lines[k].amount
        && (lines[k].green <==> lines[k].headroom > 0.0)
    decreases |txs|
  {
    if txs != [] {
      var init := txs[..|txs| - 1];
      assert HasBudgets(init, budgets) by {
        forall k | 0 <= k < |init| ensures init[k].name in budgets {
          assert init[k] == txs[k];
        }
      }
      LinesOfMeaning(init, budgets);
      assert forall k :: 0 <= k < |init| ==> init[k] == txs[k];
    }
  }

  lemma LineStep(init: seq<CategoryTotal>, tx: CategoryTotal, budgets: map<string, int>,
                 lines: seq<BudgetLine>, sum: real)
    requires Lines(init, budgets) == Ok((lines, sum)) && !Excluded(tx) && tx.name in budgets
    ensures var txs := init + [tx];
      Lines(txs, budgets) == Ok((lines + [LineFor(tx, budgets[tx.name])], sum + tx.amount))
      && Counted(txs) == Counted(init) + [tx]
      && AmountSum(Counted(txs)) == AmountSum(Counted(init)) + tx.amount
  {
    var txs := init + [tx];
    assert txs[..|txs| - 1] == init && txs[|txs| - 1] == tx;
    var c := Counted(init) + [tx];
    assert c[..|c| - 1] == Counted(init);
  }

  /** `budget_map` holds exactly the listed names, each with the budget of the last
      category listed under it. */
  lemma BudgetMapLast(cats: seq<Category>, name: string)
    ensures name in BudgetMap(cats) <==> exists k :: 0 <= k < |cats| && cats[k].name == name
    ensures name in BudgetMap(cats) ==>
      exists k :: 0 <= k < |cats| && cats[k].name == name && BudgetMap(cats)[name] == cats[k].budget
                  && forall j :: k < j < |cats| ==> cats[j].name != name
  {
    BudgetMapKeys(cats, name);
    if name in BudgetMap(cats) {
      BudgetMapValue(cats, name);
    }
  }

  lemma {:induction false} BudgetMapKeys(cats: seq<Category>, name: string)
    ensures name in BudgetMap(cats) <==> exists k :: 0 <= k < |cats| && cats[k].name == name
    decreases |cats|
  {
    if cats != [] {
      var init, last := cats[..|cats| - 1], cats[|cats| - 1];
      BudgetMapKeys(init, name);
      assert forall k :: 0 <= k < |init| ==> init[k] == cats[k];
      if last.name == name {
        assert cats[|cats| - 1].name == name;
      } else {
        assert name in BudgetMap(cats) <==> name in BudgetMap(init);
      }
    }
  }

  lemma {:induction false} BudgetMapValue(cats: seq<Category>, name: string)
    requires name in BudgetMap(cats)
    ensures exists k :: 0 <= k < |cats| && cats[k].name == name && BudgetMap(cats)[name] == cats[k].budget
                        && forall j :: k < j < |cats| ==> cats[j].name != name
    decreases |cats|
  {
    var init, last := cats[..|cats| - 1], cats[|cats| - 1];
    if last.name == name {
      assert BudgetMap(cats)[name] == last.budget;
      assert cats[|cats| - 1].name == name;
    } else {
      assert name in BudgetMap(init) && BudgetMap(cats)[name] == BudgetMap(init)[name];
      BudgetMapValue(init, name);
      var k :| 0 <= k < |init| && init[k].name == name && BudgetMap(init)[name] == init[k].budget
               && forall j :: k < j < |init| ==> init[j].name != name;
      assert cats[k] == init[k];
      assert forall j :: k < j < |cats| ==> cats[j].name != name by {
        forall j | k < j < |cats| ensures cats[j].name != name {
          if j < |init| { assert cats[j] == init[j]; }
        }
      }
    }
  }

  /** `total_budget` adds up every listed category, transfers and pay cheques
      included, and a name listed twice counts twice. */
  lemma {:induction false} TotalBudgetAppend(a: seq<Category>, b: seq<Category>)
    ensures TotalBudget(a + b) == TotalBudget(a) + TotalBudget(b)
    decreases |b|
  {
    if b != [] {
      var ab := a + b;
      assert ab[..|ab| - 1] == a + b[..|b| - 1];
      TotalBudgetAppend(a, b[..|b| - 1]);
    } else {
      assert a + b == a;
    }
  }

  /** An error in the lines so far is the error of the whole loop. */
  lemma {:induction false} LinesErrorSticks(txs: seq<CategoryTotal>, budgets: map<string, int>, i: nat)
    requires i <= |txs| && Lines(txs[..i], budgets).Err?
    ensures Lines(txs, budgets) == Lines(txs[..i], budgets)
    decreases |txs| - i
  {
    if i < |txs| {
      assert txs[..i + 1][..i] == txs[..i];
      LinesErrorSticks(txs, budgets, i + 1);
    } else {
      assert txs[..i] == txs;
    }
  }

  /** The command itself: the two accumulator loops of `do_bycat`. */
  method DoByCat(args: string, today: Date, readByCategory: (Date, Date) -> seq<CategoryTotal>,
                 categories: seq<Category>) returns (r: Result<ByCatReport>)
    requires ValidDate(today)
    ensures r == ByCat(args, today, readByCategory, categories)
  {
    var range := GetStartEnd(args, today);
    if range.Err? {
      return Err(range.error);
    }
    var transactions := readByCategory(range.value.0, range.value.1);
    var budgetMap, totalBudget := CollectBudgets(categories);
    var lines := CollectLines(transactions, budgetMap);
    if lines.Err? {
      return Err(lines.error);
    }
    return Ok(ByCatReport(lines.value.0, lines.value.1, totalBudget));
  }

  /** The loop over `list_categories()`. */
  method CollectBudgets(categories: seq<Category>) returns (budgetMap: map<string, int>, totalBudget: int)
    ensures budgetMap == BudgetMap(categories) && totalBudget == TotalBudget(categories)
  {
    budgetMap := map[];
    totalBudget := 0;
    var c := 0;
    while c < |categories|
      invariant 0 <= c <= |categories|
      invariant budgetMap == BudgetMap(categories[..c]) && totalBudget == TotalBudget(categories[..c])
    {
      var cat := categories[c];
      assert categories[..c + 1][..c] == categories[..c] && categories[..c + 1][c] == cat;
      budgetMap := budgetMap[cat.name := cat.budget];
      totalBudget := totalBudget + cat.budget;
      c := c + 1;
    }
    assert categories[..c] == categories;
  }

  /** The loop over the category totals. */
  method CollectLines(transactions: seq<CategoryTotal>, budgetMap: map<string, int>)
    returns (r: Result<(seq<BudgetLine>, real)>)
    ensures r == Lines(transactions, budgetMap)
  {
    var lines: seq<BudgetLine> := [];
    var sum := 0.0;
    var i := 0;
    while i < |transactions|
      invariant 0 <= i <= |transactions|
      invariant Lines(transactions[..i], budgetMap) == Ok((lines, sum))
    {
      var tx := transactions[i];
      LinesPrefixStep(transactions, budgetMap, i);
      i := i + 1;
      var categoryName := Title(tx.name);
      if categoryName == "Transfer" || categoryName == "Paycheck" {
        continue;
      }
      sum := sum + tx.amount;
      if tx.name !in budgetMap {
        LinesErrorSticks(transactions, budgetMap, i);
        return Err(KeyError);
      }
      var diff := budgetMap[tx.name] as real + tx.amount;
      lines := lines + [BudgetLine(tx.name, tx.amount, budgetMap[tx.name], diff, diff > 0.0)];
    }
    assert transactions[..i] == transactions;
    return Ok((lines, sum));
  }

  lemma LinesPrefixStep(txs: seq<CategoryTotal>, budgets: map<string, int>, i: int)
    requires 0 <= i < |txs|
    ensures var t := txs[..i + 1]; t[..|t| - 1] == txs[..i] && t[|t| - 1] == txs[i]
  {
  }

  // ---------------------------------------------------------------------------
  // acct
  // ---------------------------------------------------------------------------

  /** What `acct` does: list the institutions, rename one, or nothing at all. */
  datatype AcctAction = ListAccounts | UpdateInstitution(institutionId: int, nickname: string) | NoAction

  /** `do_acct(args)`: the first token is the command, `list` when there is none.
      `update` needs an integer second token (`IndexError` when missing, `ValueError`
      when not an integer) and a third token (`IndexError`); any other command does
      nothing. */
  function AcctCommand(args: string): (r: Result<AcctAction>)
    ensures r == Ok(ListAccounts) <==> Split(args) == [] || Split(args)[0] == "list"
    ensures r.Ok? && r.value.UpdateInstitution? ==>
      |Split(args)| >= 3 && Split(args)[0] == "update" && ParseInt(Split(args)[1]) == Some(r.value.institutionId)
      && r.value.nickname == Split(args)[2]
    ensures Split(args) != [] && Split(args)[0] != "list" && Split(args)[0] != "update" ==> r == Ok(NoAction)
    ensures r.Err? <==> Split(args) != [] && Split(args)[0] == "update"
                        && (|Split(args)| < 3 || ParseInt(Split(args)[1]).None?)
    ensures r.Err? ==> r.error == if |Split(args)| >= 2 && ParseInt(Split(args)[1]).None? then ValueError else IndexError
  {
    var ws := Split(args);
    var command := if ws == [] then "list" else ws[0];
    if command == "list" then Ok(ListAccounts)
    else if command == "update" then
      if |ws| < 2 then Err(IndexError)
      else
        match ParseInt(ws[1])
        case None => Err(ValueError)
        case Some(id) => if |ws| < 3 then Err(IndexError) else Ok(UpdateInstitution(id, ws[2]))
    else Ok(NoAction)
  }

  /** `acct` alone lists the accounts. */
  lemma AcctDefaultsToList(args: string)
    requires AllSpace(args)
    ensures AcctCommand(args) == Ok(ListAccounts)
  {
    LStripAllSpace(args);
  }

  /** `acct update 3 amx` renames institution 3 to `amx`. */
  lemma AcctUpdate(args: string, id: string, n: int, nickname: string, more: seq<string>)
    requires Split(args) == ["update", id, nickname] + more && ParseInt(id) == Some(n)
    ensures AcctCommand(args) == Ok(UpdateInstitution(n, nickname))
  {
  }

  /** `acct update` without an institution raises `IndexError`. */
  lemma AcctUpdateWithoutId()
    ensures AcctCommand("update") == Err(IndexError)
  {
    assert IsToken("update");
    SplitJoin(["update"]);
  }
}
