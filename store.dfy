/**
 * The ledger database as the request handlers change it: one connection with
 * foreign keys switched on, four tables, and the statements the POST handlers run
 * against them one at a time (there is no enclosing database transaction, so a
 * statement that fails leaves the earlier ones in place).
 */
module Store {
  import opened Optional
  import opened Schema

  /** The outcome of a single-row insert that reports the new row's id. */
  datatype InsertResult = Inserted(id: int) | Rejected(error: DbError)

  /**
   * The outcome of the new-transaction handler: either its first statement failed
   * and nothing was written, or the row was inserted with `id` and `tagError` says
   * whether one of the association inserts that follow it failed.
   */
  datatype CreateOutcome =
    | RowRejected(error: DbError)
    | RowInserted(id: int, tagError: Option<DbError>)

  /**
   * The `tags` field of a submitted form: absent when nothing is selected, a single
   * value when one option is, a list when several are.
   */
  datatype TagsField = Absent | Single(id: int) | Multiple(ids: seq<int>)

  /**
   * The list of tag ids a form submits: a single value becomes a one-element list,
   * an absent field none at all.
   */
  function NormaliseTags(field: TagsField): (ids: seq<int>)
    ensures field.Absent? ==> ids == []
    ensures field.Single? ==> ids == [field.id]
    ensures field.Multiple? ==> ids == field.ids
  {
    match field
    case Absent => []
    case Single(id) => [id]
    case Multiple(ids) => ids
  }

  /**
   * The amount stored for a form's `type` and its amount in cents. Only `income`
   * (multiplier 1) and `expense` (multiplier -1) have a multiplier; any other type,
   * or an amount that is not a number, gives NaN, which SQLite stores as NULL.
   */
  function SignedAmount(kind: string, cents: Option<int>): (r: Option<int>)
    ensures r.Some? <==> cents.Some? && (kind == "income" || kind == "expense")
    ensures r.Some? && kind == "income" ==> r.value == cents.value
    ensures r.Some? && kind == "expense" ==> r.value == -cents.value
  {
    if cents.None? then None
    else if kind == "income" then Some(cents.value)
    else if kind == "expense" then Some(-cents.value)
    else None
  }

  /**
   * The constraint a transaction row with these values would violate, checked in
   * column order: NOT NULL on amount, description and account_id, then the foreign
   * key to accounts.
   */
  function TransactionRowError(
    accounts: seq<Account>, amount: Option<int>, description: Option<string>, accountId: Option<int>
  ): (r: Option<DbError>)
    ensures r.None? <==>
      amount.Some? && description.Some? && accountId.Some? && accountId.value in AccountIds(accounts)
  {
    if amount.None? then Some(NotNullViolation("transactions.amount"))
    else if description.None? then Some(NotNullViolation("transactions.description"))
    else if accountId.None? then Some(NotNullViolation("transactions.account_id"))
    else if accountId.value !in AccountIds(accounts) then Some(ForeignKeyViolation)
    else None
  }

  /** The constraint an association row `(transId, tagId)` would violate: one of its two foreign keys. */
  function AssociationError(transactions: seq<Transaction>, tags: seq<Tag>, transId: int, tagId: int): (r: Option<DbError>)
    ensures r.None? <==> transId in TransactionIds(transactions) && tagId in TagIds(tags)
    ensures r.Some? ==> r.value == ForeignKeyViolation
  {
    if transId in TransactionIds(transactions) && tagId in TagIds(tags) then None else Some(ForeignKeyViolation)
  }

  /**
   * How many of `ids`, inserted in order as associations of `transId`, go in before
   * the first whose insert fails (the handler stops there).
   */
  function InsertablePrefix(transactions: seq<Transaction>, tags: seq<Tag>, transId: int, ids: seq<int>): (k: nat)
    ensures k <= |ids|
    ensures forall i :: 0 <= i < k ==> AssociationError(transactions, tags, transId, ids[i]).None?
    ensures k < |ids| ==> AssociationError(transactions, tags, transId, ids[k]).Some?
  {
    if ids == [] || AssociationError(transactions, tags, transId, ids[0]).Some? then 0
    else 1 + InsertablePrefix(transactions, tags, transId, ids[1..])
  }

  /** The association rows that inserting `ids` for `transId` appends, one per id, in order. */
  function Associate(transId: int, ids: seq<int>): (r: seq<TransactionTag>)
    ensures |r| == |ids|
    ensures forall i :: 0 <= i < |ids| ==> r[i] == TransactionTag(transId, ids[i])
  {
    seq(|ids|, i requires 0 <= i < |ids| => TransactionTag(transId, ids[i]))
  }

  /** `delete from transaction_tags where trans_id = ?`: every other row, in order. */
  function WithoutTransaction(assocs: seq<TransactionTag>, transId: int): (r: seq<TransactionTag>)
    ensures forall a :: a in r <==> a in assocs && a.transId != transId
    ensures TagIdsOf(r, transId) == []
    ensures forall other :: other != transId ==> TagIdsOf(r, other) == TagIdsOf(assocs, other)
  {
    if assocs == [] then []
    else
      var rest := WithoutTransaction(assocs[1..], transId);
      assert forall a :: a in assocs <==> a == assocs[0] || a in assocs[1..];
      if assocs[0].transId == transId then rest
      else
        assert ([assocs[0]] + rest)[1..] == rest;
        [assocs[0]] + rest
  }

  /**
   * `update transactions set amount, description, account_id, notes where id = ?`:
   * the row with that id takes the four new values and keeps its id and timestamp;
   * every other row is left as it was.
   */
  function Overwrite(
    transactions: seq<Transaction>, id: int, amount: int, description: string, accountId: int, notes: Option<string>
  ): (r: seq<Transaction>)
    ensures |r| == |transactions|
    ensures TransactionIds(r) == TransactionIds(transactions)
    ensures forall i :: 0 <= i < |r| && transactions[i].id != id ==> r[i] == transactions[i]
    ensures forall i :: 0 <= i < |r| && transactions[i].id == id ==>
      r[i] == Transaction(id, transactions[i].timestamp, amount, description, accountId, notes)
  {
    seq(|transactions|, i requires 0 <= i < |transactions| =>
      if transactions[i].id == id
      then transactions[i].(amount := amount, description := description, accountId := accountId, notes := notes)
      else transactions[i])
  }

  /** Deleting the associations of a transaction that has none deletes nothing. */
  lemma {:induction false} WithoutAbsentTransaction(assocs: seq<TransactionTag>, transId: int)
    requires forall a :: a in assocs ==> a.transId != transId
    ensures WithoutTransaction(assocs, transId) == assocs
  {
    if assocs != [] {
      assert assocs[0] in assocs;
      assert forall a :: a in assocs[1..] ==> a in assocs;
      WithoutAbsentTransaction(assocs[1..], transId);
      assert assocs == [assocs[0]] + assocs[1..];
    }
  }

  /** No association of a missing transaction can be inserted: the first insert already fails. */
  lemma MissingTransactionTakesNoTags(transactions: seq<Transaction>, tags: seq<Tag>, transId: int, ids: seq<int>)
    requires transId !in TransactionIds(transactions)
    ensures InsertablePrefix(transactions, tags, transId, ids) == 0
  {
    if ids != [] {
      assert AssociationError(transactions, tags, transId, ids[0]).Some?;
    }
  }

  /** After the association rows of `id` are deleted and `ids` inserted for it, `id`'s tags are exactly `ids`. */
  lemma {:induction false} ReplacedAssociations(assocs: seq<TransactionTag>, id: int, ids: seq<int>, other: int)
    ensures TagIdsOf(WithoutTransaction(assocs, id) + Associate(id, ids), id) == ids
    ensures other != id ==>
      TagIdsOf(WithoutTransaction(assocs, id) + Associate(id, ids), other) == TagIdsOf(assocs, other)
  {
    TagIdsOfAppend(WithoutTransaction(assocs, id), Associate(id, ids), id);
    TagIdsOfAppend(WithoutTransaction(assocs, id), Associate(id, ids), other);
    AssociatedIds(id, ids, other);
  }

  /** Inserting `ids` for a transaction that had no association rows gives it exactly `ids`. */
  lemma {:induction false} FreshAssociations(assocs: seq<TransactionTag>, id: int, ids: seq<int>, other: int)
    requires forall a :: a in assocs ==> a.transId != id
    ensures TagIdsOf(assocs + Associate(id, ids), id) == ids
    ensures other != id ==> TagIdsOf(assocs + Associate(id, ids), other) == TagIdsOf(assocs, other)
  {
    TagIdsOfAppend(assocs, Associate(id, ids), id);
    TagIdsOfAppend(assocs, Associate(id, ids), other);
    NoTagIds(assocs, id);
    AssociatedIds(id, ids, other);
  }

  lemma {:induction false} NoTagIds(assocs: seq<TransactionTag>, id: int)
    requires forall a :: a in assocs ==> a.transId != id
    ensures TagIdsOf(assocs, id) == []
  {
    if assocs != [] {
      assert assocs[0] in assocs;
      assert forall a :: a in assocs[1..] ==> a in assocs;
      NoTagIds(assocs[1..], id);
    }
  }

  lemma {:induction false} AssociatedIds(id: int, ids: seq<int>, other: int)
    ensures TagIdsOf(Associate(id, ids), id) == ids
    ensures other != id ==> TagIdsOf(Associate(id, ids), other) == []
  {
    if ids != [] {
      assert Associate(id, ids)[1..] == Associate(id, ids[1..]);
      AssociatedIds(id, ids[1..], other);
      assert ids == [ids[0]] + ids[1..];
    }
  }

  /**
   * The ledger database behind one open connection. Each field is one table; the
   * object invariant is the schema's: unique keys and enforced foreign keys.
   */
  class Ledger {
    var accounts: seq<Account>
    var tags: seq<Tag>
    var transactions: seq<Transaction>
    var transactionTags: seq<TransactionTag>

    function Snapshot(): Tables
      reads this
    {
      Tables(accounts, tags, transactions, transactionTags)
    }

    ghost predicate Valid()
      reads this
    {
      WellFormed(Snapshot())
    }

    /**
     * Opening the database file and running the setup statements: each
     * `create table if not exists` creates an empty table where there was none and
     * leaves an existing table, and its rows, exactly as they were.
     */
    constructor Open(existing: Option<Tables>)
      requires existing.Some? ==> WellFormed(existing.value)
      ensures Valid()
      ensures existing.None? ==> Snapshot() == Tables([], [], [], [])
      ensures existing.Some? ==> Snapshot() == existing.value
    {
      match existing
      case None =>
        accounts, tags, transactions, transactionTags := [], [], [], [];
      case Some(t) =>
        accounts, tags, transactions, transactionTags := t.accounts, t.tags, t.transactions, t.transactionTags;
    }

    /** `insert into accounts(name) values(?)`: fails on a missing name, else appends a row under a fresh id. */
    method CreateAccount(name: Option<string>) returns (r: InsertResult)
      requires Valid()
      modifies this`accounts
      ensures Valid()
      ensures name.None? ==> r == Rejected(NotNullViolation("accounts.name")) && accounts == old(accounts)
      ensures name.Some? ==>
        && r == Inserted(NextRowId(AccountIds(old(accounts))))
        && r.id !in AccountIds(old(accounts))
        && accounts == old(accounts) + [Account(r.id, name.value)]
    {
      if name.None? {
        return Rejected(NotNullViolation("accounts.name"));
      }
      var id := NextRowId(AccountIds(accounts));
      assert AccountIds(accounts + [Account(id, name.value)]) == AccountIds(accounts) + [id];
      accounts := accounts + [Account(id, name.value)];
      r := Inserted(id);
    }

    /** `insert into tags(name) values(?)`: fails on a missing name, else appends a row under a fresh id. */
    method CreateTag(name: Option<string>) returns (r: InsertResult)
      requires Valid()
      modifies this`tags
      ensures Valid()
      ensures name.None? ==> r == Rejected(NotNullViolation("tags.name")) && tags == old(tags)
      ensures name.Some? ==>
        && r == Inserted(NextRowId(TagIds(old(tags))))
        && r.id !in TagIds(old(tags))
        && tags == old(tags) + [Tag(r.id, name.value)]
    {
      if name.None? {
        return Rejected(NotNullViolation("tags.name"));
      }
      var id := NextRowId(TagIds(tags));
      assert TagIds(tags + [Tag(id, name.value)]) == TagIds(tags) + [id];
      tags := tags + [Tag(id, name.value)];
      r := Inserted(id);
    }

    /** `insert into transaction_tags(trans_id, tag_id) values(?, ?)`, with both foreign keys checked. */
    method InsertAssociation(transId: int, tagId: int) returns (err: Option<DbError>)
      requires Valid()
      modifies this`transactionTags
      ensures Valid()
      ensures err == AssociationError(transactions, tags, transId, tagId)
      ensures err.None? ==> transactionTags == old(transactionTags) + [TransactionTag(transId, tagId)]
      ensures err.Some? ==> transactionTags == old(transactionTags)
    {
      err := AssociationError(transactions, tags, transId, tagId);
      if err.None? {
        transactionTags := transactionTags + [TransactionTag(transId, tagId)];
      }
    }

    /**
     * The loop both transaction handlers end with: insert one association per id,
     * in order, stopping at the first insert that fails.
     */
    method InsertTags(transId: int, ids: seq<int>) returns (err: Option<DbError>)
      requires Valid()
      modifies this`transactionTags
      ensures Valid()
      ensures transactionTags ==
        old(transactionTags) + Associate(transId, ids[..InsertablePrefix(transactions, tags, transId, ids)])
      ensures err.None? <==> InsertablePrefix(transactions, tags, transId, ids) == |ids|
    {
      ghost var k := InsertablePrefix(transactions, tags, transId, ids);
      var i := 0;
      while i < |ids|
        invariant i <= k
        invariant Valid()
        invariant transactionTags == old(transactionTags) + Associate(transId, ids[..i])
      {
        err := InsertAssociation(transId, ids[i]);
        if err.Some? {
          return;
        }
        assert Associate(transId, ids[..i + 1]) == Associate(transId, ids[..i]) + [TransactionTag(transId, ids[i])];
        i := i + 1;
      }
      assert ids[..i] == ids;
      err := None;
    }

    /**
     * The new-transaction handler: insert the row stamped `now`, then one
     * association per submitted tag id. A failing row insert writes nothing; a
     * failing association insert keeps the row and the associations before it.
     */
    method CreateTransaction(
      now: string, kind: string, cents: Option<int>, description: Option<string>,
      accountId: Option<int>, notes: Option<string>, tagsField: TagsField
    ) returns (r: CreateOutcome)
      requires Valid()
      modifies this`transactions, this`transactionTags
      ensures Valid()
      ensures r.RowRejected? <==>
        TransactionRowError(accounts, SignedAmount(kind, cents), description, accountId).Some?
      ensures r.RowRejected? ==>
        && Some(r.error) == TransactionRowError(accounts, SignedAmount(kind, cents), description, accountId)
        && transactions == old(transactions)
        && transactionTags == old(transactionTags)
      ensures r.RowInserted? ==>
        && r.id == NextRowId(TransactionIds(old(transactions)))
        && r.id !in TransactionIds(old(transactions))
        && transactions == old(transactions) +
             [Transaction(r.id, now, SignedAmount(kind, cents).value, description.value, accountId.value, notes)]
        && var ids := NormaliseTags(tagsField);
           var k := InsertablePrefix(transactions, tags, r.id, ids);
           && transactionTags == old(transactionTags) + Associate(r.id, ids[..k])
           && TagIdsOf(transactionTags, r.id) == ids[..k]
           && (forall other :: other != r.id ==> TagIdsOf(transactionTags, other) == TagIdsOf(old(transactionTags), other))
           && (r.tagError.None? <==> k == |ids|)
    {
      var amount := SignedAmount(kind, cents);
      var rowError := TransactionRowError(accounts, amount, description, accountId);
      if rowError.Some? {
        return RowRejected(rowError.value);
      }
      var id := NextRowId(TransactionIds(transactions));
      var row := Transaction(id, now, amount.value, description.value, accountId.value, notes);
      assert TransactionIds(transactions + [row]) == TransactionIds(transactions) + [id];
      transactions := transactions + [row];
      ghost var before := transactionTags;
      var ids := NormaliseTags(tagsField);
      var tagError := InsertTags(id, ids);
      r := RowInserted(id, tagError);
      ghost var k := InsertablePrefix(transactions, tags, id, ids);
      forall other | other != id
        ensures TagIdsOf(transactionTags, other) == TagIdsOf(before, other)
      {
        FreshAssociations(before, id, ids[..k], other);
      }
      FreshAssociations(before, id, ids[..k], id);
    }

    /**
     * The edit-transaction handler for row `id`: overwrite the row's amount,
     * description, account and notes, delete every association of `id`, then insert
     * the submitted tag ids. When no row has `id` the update matches nothing and so
     * violates nothing; the delete likewise, and any association insert then fails
     * its foreign key.
     */
    method UpdateTransaction(
      id: int, kind: string, cents: Option<int>, description: Option<string>,
      accountId: Option<int>, notes: Option<string>, tagsField: TagsField
    ) returns (err: Option<DbError>)
      requires Valid()
      modifies this`transactions, this`transactionTags
      ensures Valid()
      ensures var rowError := TransactionRowError(accounts, SignedAmount(kind, cents), description, accountId);
        id in TransactionIds(old(transactions)) && rowError.Some? ==>
          err == rowError && transactions == old(transactions) && transactionTags == old(transactionTags)
      ensures id !in TransactionIds(old(transactions)) ==> transactions == old(transactions)
      ensures var rowError := TransactionRowError(accounts, SignedAmount(kind, cents), description, accountId);
        id in TransactionIds(old(transactions)) && rowError.None? ==>
          transactions == Overwrite(old(transactions), id, SignedAmount(kind, cents).value, description.value,
                                    accountId.value, notes)
      ensures var rowError := TransactionRowError(accounts, SignedAmount(kind, cents), description, accountId);
        id !in TransactionIds(old(transactions)) || rowError.None? ==>
          var ids := NormaliseTags(tagsField);
          var k := InsertablePrefix(transactions, tags, id, ids);
          && transactionTags == WithoutTransaction(old(transactionTags), id) + Associate(id, ids[..k])
          && TagIdsOf(transactionTags, id) == ids[..k]
          && (forall other :: other != id ==> TagIdsOf(transactionTags, other) == TagIdsOf(old(transactionTags), other))
          && (err.None? <==> k == |ids|)
      ensures id !in TransactionIds(old(transactions)) ==>
        && transactionTags == old(transactionTags)
        && (err.None? <==> NormaliseTags(tagsField) == [])
    {
      if id in TransactionIds(transactions) {
        var amount := SignedAmount(kind, cents);
        var rowError := TransactionRowError(accounts, amount, description, accountId);
        if rowError.Some? {
          return rowError;
        }
        transactions := Overwrite(transactions, id, amount.value, description.value, accountId.value, notes);
      }
      ghost var before := transactionTags;
      transactionTags := WithoutTransaction(transactionTags, id);
      var ids := NormaliseTags(tagsField);
      err := InsertTags(id, ids);
      ghost var k := InsertablePrefix(transactions, tags, id, ids);
      forall other | other != id
        ensures TagIdsOf(transactionTags, other) == TagIdsOf(before, other)
      {
        ReplacedAssociations(before, id, ids[..k], other);
      }
      ReplacedAssociations(before, id, ids[..k], id);
      if id !in TransactionIds(transactions) {
        assert forall a :: a in before ==> a.transId != id;
        WithoutAbsentTransaction(before, id);
        MissingTransactionTakesNoTags(transactions, tags, id, ids);
      }
    }
  }
}
