/**
 * The four tables of the ledger database and the constraints SQLite enforces on them
 * once foreign keys are switched on: integer primary keys, NOT NULL columns, and
 * foreign keys from transactions to accounts and from transaction_tags to both
 * transactions and tags.
 */
module Schema {
  import opened Optional

  /** A row of `accounts`; `name` is NOT NULL. */
  datatype Account = Account(id: int, name: string)

  /** A row of `tags`; `name` is NOT NULL. */
  datatype Tag = Tag(id: int, name: string)

  /**
   * A row of `transactions`. The timestamp is the ISO-8601 text the handler stores,
   * the amount is a signed integer in cents (positive income, negative expense),
   * and `notes` is the one nullable column.
   */
  datatype Transaction = Transaction(
    id: int,
    timestamp: string,
    amount: int,
    description: string,
    accountId: int,
    notes: Option<string>)

  /** A row of `transaction_tags`. The table has no key, so equal rows may coexist. */
  datatype TransactionTag = TransactionTag(transId: int, tagId: int)

  /** The contents of the whole database at one moment. */
  datatype Tables = Tables(
    accounts: seq<Account>,
    tags: seq<Tag>,
    transactions: seq<Transaction>,
    transactionTags: seq<TransactionTag>)

  /** The error SQLite raises when a statement violates a constraint. */
  datatype DbError = NotNullViolation(column: string) | ForeignKeyViolation

  function AccountIds(s: seq<Account>): seq<int> {
    seq(|s|, i requires 0 <= i < |s| => s[i].id)
  }

  function TagIds(s: seq<Tag>): seq<int> {
    seq(|s|, i requires 0 <= i < |s| => s[i].id)
  }

  function TransactionIds(s: seq<Transaction>): seq<int> {
    seq(|s|, i requires 0 <= i < |s| => s[i].id)
  }

  /** No value occurs twice: what a primary key guarantees of its column. */
  ghost predicate Distinct(ids: seq<int>) {
    forall i, j :: 0 <= i < j < |ids| ==> ids[i] != ids[j]
  }

  /**
   * The schema's invariant: each table's primary key is unique, every transaction
   * names an existing account, and every association names an existing transaction
   * and an existing tag. (NOT NULL is carried by the row types.)
   */
  ghost predicate WellFormed(t: Tables) {
    && Distinct(AccountIds(t.accounts))
    && Distinct(TagIds(t.tags))
    && Distinct(TransactionIds(t.transactions))
    && (forall tr :: tr in t.transactions ==> tr.accountId in AccountIds(t.accounts))
    && (forall a :: a in t.transactionTags ==>
          a.transId in TransactionIds(t.transactions) && a.tagId in TagIds(t.tags))
  }

  /** The largest of a non-empty column of ids. */
  function MaxId(ids: seq<int>): (m: int)
    requires ids != []
    ensures m in ids
    ensures forall x :: x in ids ==> x <= m
  {
    if |ids| == 1 then ids[0]
    else
      var rest := MaxId(ids[1..]);
      assert forall x :: x in ids ==> x == ids[0] || x in ids[1..];
      if ids[0] < rest then rest else ids[0]
  }

  /**
   * The id SQLite gives a row inserted without one into a table whose key is an
   * `integer primary key`: one more than the largest id present, 1 in an empty table.
   * It is fresh: larger than, hence different from, every id already in the table.
   */
  function NextRowId(ids: seq<int>): (r: int)
    ensures forall x :: x in ids ==> x < r
    ensures r !in ids
    ensures ids == [] ==> r == 1
  {
    if ids == [] then 1 else MaxId(ids) + 1
  }

  /** The account row with key `id`, if there is one. */
  function FindAccount(accounts: seq<Account>, id: int): (r: Option<Account>)
    ensures r.Some? <==> id in AccountIds(accounts)
    ensures r.Some? ==> r.value in accounts && r.value.id == id
  {
    if accounts == [] then None
    else if accounts[0].id == id then assert AccountIds(accounts)[0] == id; Some(accounts[0])
    else
      assert AccountIds(accounts) == [accounts[0].id] + AccountIds(accounts[1..]);
      FindAccount(accounts[1..], id)
  }

  /** The tag row with key `id`, if there is one. */
  function FindTag(tags: seq<Tag>, id: int): (r: Option<Tag>)
    ensures r.Some? <==> id in TagIds(tags)
    ensures r.Some? ==> r.value in tags && r.value.id == id
  {
    if tags == [] then None
    else if tags[0].id == id then assert TagIds(tags)[0] == id; Some(tags[0])
    else
      assert TagIds(tags) == [tags[0].id] + TagIds(tags[1..]);
      FindTag(tags[1..], id)
  }

  /** The transaction row with key `id`, if there is one. */
  function FindTransaction(transactions: seq<Transaction>, id: int): (r: Option<Transaction>)
    ensures r.Some? <==> id in TransactionIds(transactions)
    ensures r.Some? ==> r.value in transactions && r.value.id == id
  {
    if transactions == [] then None
    else if transactions[0].id == id then assert TransactionIds(transactions)[0] == id; Some(transactions[0])
    else
      assert TransactionIds(transactions) == [transactions[0].id] + TransactionIds(transactions[1..]);
      FindTransaction(transactions[1..], id)
  }

  /**
   * `select tag_id from transaction_tags where trans_id = ?`: the tag ids associated
   * with one transaction, in table order, duplicates included.
   */
  function TagIdsOf(assocs: seq<TransactionTag>, transId: int): (r: seq<int>)
    ensures forall g :: g in r <==> TransactionTag(transId, g) in assocs
    ensures |r| <= |assocs|
  {
    if assocs == [] then []
    else
      var rest := TagIdsOf(assocs[1..], transId);
      assert forall a :: a in assocs <==> a == assocs[0] || a in assocs[1..];
      if assocs[0].transId == transId then [assocs[0].tagId] + rest else rest
  }

  /** `TagIdsOf` distributes over a table split in two. */
  lemma {:induction false} TagIdsOfAppend(a: seq<TransactionTag>, b: seq<TransactionTag>, transId: int)
    ensures TagIdsOf(a + b, transId) == TagIdsOf(a, transId) + TagIdsOf(b, transId)
  {
    if a == [] {
      assert a + b == b;
    } else {
      assert (a + b)[0] == a[0];
      assert (a + b)[1..] == a[1..] + b;
      TagIdsOfAppend(a[1..], b, transId);
    }
  }
}
