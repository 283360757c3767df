/**
 * The handlers driven end to end on a fresh database: an account, a tag, and an
 * expense recorded against both, then the account's total and the tag's page.
 */
module Scenario {
  import opened Optional
  import opened Schema
  import opened Store
  import opened Queries

  /** The recorded instant: 1 March 2024, 10:00 UTC. */
  const Stamp: string := "2024-03-01T10:00:00.000Z"

  /** The database after the three creations below. */
  function AfterExpense(): (t: Tables)
    ensures WellFormed(t)
  {
    var t := Tables(
      [Account(1, "Checking")],
      [Tag(1, "Food")],
      [Transaction(1, Stamp, -1250, "groceries", 1, None)],
      [TransactionTag(1, 1)]);
    assert AccountIds(t.accounts) == [1] && TagIds(t.tags) == [1] && TransactionIds(t.transactions) == [1];
    t
  }

  /** On a fresh database, create account "Checking" and tag "Food": both get id 1. */
  method OpenWithAccountAndTag() returns (ledger: Ledger)
    ensures fresh(ledger) && ledger.Valid()
    ensures ledger.Snapshot() == Tables([Account(1, "Checking")], [Tag(1, "Food")], [], [])
  {
    ledger := new Ledger.Open(None);
    var account := ledger.CreateAccount(Some("Checking"));
    assert ledger.accounts == [Account(1, "Checking")];
    var tag := ledger.CreateTag(Some("Food"));
    assert ledger.tags == [Tag(1, "Food")];
  }

  /**
   * Then record an expense of 1250 cents on account 1 tagged 1 (a single selected
   * tag): the transaction gets id 1, is stored with amount -1250, and has one association.
   */
  method RecordExpense() returns (t: Tables)
    ensures t == AfterExpense()
  {
    var ledger := OpenWithAccountAndTag();
    assert AccountIds(ledger.accounts) == [1] && TagIds(ledger.tags) == [1];
    var created := ledger.CreateTransaction(Stamp, "expense", Some(1250), Some("groceries"), Some(1), None, Single(1));
    assert created.RowInserted? && created.id == 1;
    assert ledger.transactions == [Transaction(1, Stamp, -1250, "groceries", 1, None)];
    assert InsertablePrefix(ledger.transactions, ledger.tags, 1, [1]) == 1 by {
      assert TransactionIds(ledger.transactions) == [1];
      assert AssociationError(ledger.transactions, ledger.tags, 1, 1).None?;
      assert [1][1..] == [];
    }
    assert [1][..1] == [1];
    t := ledger.Snapshot();
  }

  /** In that database the account's lifetime total is -1250. */
  lemma ExpenseAccountTotal()
    ensures Total(AfterExpense(), ByAccount(1)) == Some(-1250)
  {
    var t := AfterExpense();
    var stored := t.transactions[0];
    assert t.transactions == [stored];
    assert Select(t, t.transactions, ByAccount(1), None) == [stored];
    assert [stored][1..] == [];
    assert SumAmounts([stored]) == -1250;
  }

  /**
   * A timestamp taken on a day lies inside the range from that day to any later
   * day written in the same format (dates of equal length).
   */
  lemma DayContains(day: string, later: string, time: string)
    requires |day| == |later| && day != later && Text.LexLe(day, later) && time != []
    ensures InRange(day + time, DateRange(day, later))
  {
    Text.ExtensionSortsAfter(day, time);
    Text.SameLengthBelow(day, later, time);
  }

  /**
   * On the tag's page, any range holding the timestamp lists the one transaction,
   * under "Checking", tagged "Food" (`PurchaseDayPage` names one such range).
   */
  lemma ExpenseTagPage(range: DateRange)
    requires InRange(Stamp, range)
    ensures var page := Listing(AfterExpense(), ByTag(1), range);
      && |page| == 1
      && page[0].transaction == AfterExpense().transactions[0]
      && page[0].accountName == "Checking"
      && page[0].tagNames == multiset{"Food"}
  {
    var t := AfterExpense();
    var stored := t.transactions[0];
    assert t.transactions == [stored];
    assert Select(t, t.transactions, ByTag(1), Some(range)) == [stored];
    assert SortNewestFirst([stored]) == [stored];
    assert TagIdsOf(t.transactionTags, 1) == [1];
    assert TagNames(t.tags, [1], ByTag(1)) == multiset{"Food"};
  }

  /** The tag's page for the day of the purchase and the next lists the purchase. */
  lemma PurchaseDayPage(range: DateRange)
    requires range.start == "2024-03-01" && range.end == "2024-03-02"
    ensures InRange(Stamp, range)
    ensures var page := Listing(AfterExpense(), ByTag(1), range);
      |page| == 1 && page[0].transaction == AfterExpense().transactions[0]
  {
    var prefix := "2024-03-0";
    var time := "T10:00:00.000Z";
    assert Stamp == range.start + time;
    assert Text.LexLe(range.start, range.end) by {
      assert range.start == prefix + ['1'] && range.end == prefix + ['2'];
      Text.FirstDifferenceDecides(prefix, ['1'], ['2']);
    }
    DayContains(range.start, range.end, time);
    ExpenseTagPage(range);
  }
}
