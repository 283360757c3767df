/**
 * The account and tag choices the transaction forms offer, and which of them
 * each form preselects.
 */
module Forms {
  import opened Optional
  import opened Schema
  import opened Text

  /** A row offered as a form option, with whether the option is preselected. */
  datatype Choice<T> = Choice(item: T, selected: bool)

  /**
   * The accounts of the new-transaction form. An account is preselected when the
   * `account_id` query parameter is exactly its id written in decimal (the text
   * `"007"` selects nothing).
   */
  function NewTransactionAccounts(accounts: seq<Account>, queryAccountId: Option<string>): (r: seq<Choice<Account>>)
    ensures |r| == |accounts|
    ensures forall i :: 0 <= i < |r| ==> r[i].item == accounts[i]
    ensures forall i :: 0 <= i < |r| ==> (r[i].selected <==> queryAccountId == Some(IntToDecimal(accounts[i].id)))
  {
    seq(|accounts|, i requires 0 <= i < |accounts| =>
      Choice(accounts[i], queryAccountId == Some(IntToDecimal(accounts[i].id))))
  }

  /**
   * The account the new-transaction form preselects is the one the query names:
   * the query's decimal value is its id. Since account ids are unique, at most one
   * account is preselected.
   */
  lemma AtMostOneAccountPreselected(accounts: seq<Account>, queryAccountId: Option<string>)
    requires Distinct(AccountIds(accounts))
    ensures var r := NewTransactionAccounts(accounts, queryAccountId);
      && (forall i :: 0 <= i < |r| && r[i].selected ==> ParseInt(queryAccountId.value) == Some(accounts[i].id))
      && (forall i, j :: 0 <= i < j < |r| ==> !(r[i].selected && r[j].selected))
  {
    var r := NewTransactionAccounts(accounts, queryAccountId);
    forall i | 0 <= i < |r| && r[i].selected
      ensures ParseInt(queryAccountId.value) == Some(accounts[i].id)
    {
      ParseIntDecimal(accounts[i].id);
    }
    forall i, j | 0 <= i < j < |r|
      ensures !(r[i].selected && r[j].selected)
    {
      assert AccountIds(accounts)[i] == accounts[i].id && AccountIds(accounts)[j] == accounts[j].id;
    }
  }

  /**
   * A query value with a leading zero, after an optional minus sign, and more than
   * one digit preselects no account, since `toString` never writes such a zero.
   */
  lemma LeadingZeroSelectsNothing(accounts: seq<Account>, query: string)
    requires |query| >= 2 && (query[0] == '0' || (query[0] == '-' && query[1] == '0'))
    ensures forall c :: c in NewTransactionAccounts(accounts, Some(query)) ==> !c.selected
  {
    var r := NewTransactionAccounts(accounts, Some(query));
    forall i | 0 <= i < |r|
      ensures !r[i].selected
    {
      var id := accounts[i].id;
      assert id >= 0 ==> |IntToDecimal(id)| == 1 || IntToDecimal(id)[0] != '0';
      assert id < 0 ==> IntToDecimal(id)[1] != '0';
    }
  }

  /** What the edit-transaction page shows: the row, every account and every tag as choices. */
  datatype EditView = EditView(transaction: Transaction, accounts: seq<Choice<Account>>, tags: seq<Choice<Tag>>)

  /**
   * The edit-transaction page for `id`. Its account is preselected by comparing the
   * two ids' decimal text, and a tag is preselected when it is among the tag ids of
   * the transaction's association rows. With no row for `id` the handler fails
   * (it reads a field of an undefined row), which is `None` here.
   */
  function EditTransactionForm(t: Tables, id: int): (r: Option<EditView>)
    ensures r.None? <==> id !in TransactionIds(t.transactions)
    ensures r.Some? ==> r.value.transaction in t.transactions && r.value.transaction.id == id
  {
    match FindTransaction(t.transactions, id)
    case None => None
    case Some(tr) =>
      var tagIds := TagIdsOf(t.transactionTags, tr.id);
      Some(EditView(
        tr,
        seq(|t.accounts|, i requires 0 <= i < |t.accounts| =>
          Choice(t.accounts[i], IntToDecimal(tr.accountId) == IntToDecimal(t.accounts[i].id))),
        seq(|t.tags|, i requires 0 <= i < |t.tags| =>
          Choice(t.tags[i], t.tags[i].id in tagIds))))
  }

  /**
   * On the edit page of an existing transaction exactly one account is
   * preselected, the transaction's own, and a tag is preselected exactly when the
   * transaction has an association row with it.
   */
  lemma EditFormSelection(t: Tables, id: int)
    requires WellFormed(t)
    requires id in TransactionIds(t.transactions)
    ensures var v := EditTransactionForm(t, id).value;
      && |v.accounts| == |t.accounts|
      && (forall i :: 0 <= i < |v.accounts| ==>
            v.accounts[i].item == t.accounts[i]
            && (v.accounts[i].selected <==> t.accounts[i].id == v.transaction.accountId))
      && (exists i :: 0 <= i < |v.accounts| && v.accounts[i].selected)
      && (forall i, j :: 0 <= i < j < |v.accounts| ==> !(v.accounts[i].selected && v.accounts[j].selected))
      && |v.tags| == |t.tags|
      && (forall i :: 0 <= i < |v.tags| ==>
            v.tags[i].item == t.tags[i]
            && (v.tags[i].selected <==> TransactionTag(id, t.tags[i].id) in t.transactionTags))
  {
    var v := EditTransactionForm(t, id).value;
    var tr := v.transaction;
    forall i | 0 <= i < |v.accounts|
      ensures v.accounts[i].selected <==> t.accounts[i].id == tr.accountId
    {
      if v.accounts[i].selected {
        DecimalInjective(tr.accountId, t.accounts[i].id);
      }
    }
    assert tr.accountId in AccountIds(t.accounts);
    var k :| 0 <= k < |t.accounts| && AccountIds(t.accounts)[k] == tr.accountId;
    assert v.accounts[k].selected;
    forall i, j | 0 <= i < j < |v.accounts|
      ensures !(v.accounts[i].selected && v.accounts[j].selected)
    {
      assert AccountIds(t.accounts)[i] == t.accounts[i].id && AccountIds(t.accounts)[j] == t.accounts[j].id;
    }
  }
}
