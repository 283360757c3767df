/**
 * The read side of the ledger: the date range a page shows, the three scopes a
 * page lists (every transaction, one account's, one tag's), the listing of a
 * scope within the range, its lifetime total and its total within the range.
 */
module Queries {
  import opened Optional
  import opened Schema
  import opened Text

  /** The start of the range when the page is not given one. */
  const BeginningOfTime: string := "2023-01-01"

  /** An inclusive range of timestamps, compared as text. */
  datatype DateRange = DateRange(start: string, end: string)

  /**
   * The range a page uses: each bound takes its default only when its query
   * parameter is absent; a parameter that is present, even an empty one, is used
   * as it is. `today` is the current UTC date, `YYYY-MM-DD`.
   */
  function ResolveRange(startDate: Option<string>, endDate: Option<string>, today: string): (r: DateRange)
    ensures startDate.Some? ==> r.start == startDate.value
    ensures startDate.None? ==> r.start == BeginningOfTime
    ensures endDate.Some? ==> r.end == endDate.value
    ensures endDate.None? ==> r.end == today
  {
    DateRange(startDate.GetOr(BeginningOfTime), endDate.GetOr(today))
  }

  /** A query parameter counts as supplied when it is present and not the empty string. */
  predicate Supplied(p: Option<string>)
    ensures Supplied(p) <==> p.Some? && |p.value| > 0
  {
    p.Some? && p.value != ""
  }

  /** `timestamp between start and end`, under SQLite's text ordering. */
  predicate InRange(timestamp: string, range: DateRange)
    ensures InRange(timestamp, range) ==> LexLe(range.start, range.end)
  {
    if LexLe(range.start, timestamp) && LexLe(timestamp, range.end) then
      LexLeTransitive(range.start, timestamp, range.end);
      true
    else false
  }

  /** A range constraint that may be absent (the lifetime totals have none). */
  predicate WithinRange(timestamp: string, range: Option<DateRange>) {
    range.None? || InRange(timestamp, range.value)
  }

  /**
   * A stored timestamp on the end date itself (the date followed by a time of day)
   * sorts after the bare date, so the inclusive range leaves it out.
   */
  lemma EndDateTimestampExcluded(range: DateRange, timeOfDay: string)
    requires timeOfDay != []
    ensures !InRange(range.end + timeOfDay, range)
  {
    ExtensionSortsAfter(range.end, timeOfDay);
  }

  /** So the default range, which ends on today's date, leaves out every transaction recorded today. */
  lemma DefaultRangeExcludesToday(startDate: Option<string>, today: string, timeOfDay: string)
    requires timeOfDay != []
    ensures !InRange(today + timeOfDay, ResolveRange(startDate, None, today))
  {
    EndDateTimestampExcluded(ResolveRange(startDate, None, today), timeOfDay);
  }

  /** The transactions a page is about. */
  datatype Scope = All | ByAccount(accountId: int) | ByTag(tagId: int)

  predicate InScope(t: Tables, tr: Transaction, scope: Scope)
    ensures scope.All? ==> InScope(t, tr, scope)
    ensures scope.ByTag? ==> (InScope(t, tr, scope) <==> scope.tagId in TagIdsOf(t.transactionTags, tr.id))
  {
    match scope
    case All => true
    case ByAccount(a) => tr.accountId == a
    case ByTag(g) => TransactionTag(tr.id, g) in t.transactionTags
  }

  predicate Matches(t: Tables, tr: Transaction, scope: Scope, range: Option<DateRange>) {
    InScope(t, tr, scope) && WithinRange(tr.timestamp, range)
  }

  /** No two transactions share an id. */
  ghost predicate UniqueIds(s: seq<Transaction>) {
    forall i, j :: 0 <= i < j < |s| ==> s[i].id != s[j].id
  }

  /** The transactions of `txns` in scope and range, in table order. */
  function Select(t: Tables, txns: seq<Transaction>, scope: Scope, range: Option<DateRange>): (r: seq<Transaction>)
    ensures forall tr :: tr in r <==> tr in txns && Matches(t, tr, scope, range)
    ensures UniqueIds(txns) ==> UniqueIds(r)
  {
    if txns == [] then []
    else
      var rest := Select(t, txns[1..], scope, range);
      assert forall tr :: tr in txns <==> tr == txns[0] || tr in txns[1..];
      if Matches(t, txns[0], scope, range) then
        assert UniqueIds(txns) ==> forall tr :: tr in rest ==> tr.id != txns[0].id;
        assert ([txns[0]] + rest)[1..] == rest;
        [txns[0]] + rest
      else rest
  }

  lemma {:induction false} SelectAll(t: Tables, txns: seq<Transaction>)
    ensures Select(t, txns, All, None) == txns
  {
    if txns != [] {
      SelectAll(t, txns[1..]);
      assert txns == [txns[0]] + txns[1..];
    }
  }

  /** Newest first: timestamps never increase along the sequence. */
  ghost predicate NewestFirst(s: seq<Transaction>) {
    forall i, j :: 0 <= i < j < |s| ==> LexLe(s[j].timestamp, s[i].timestamp)
  }

  /** The sum of the amounts, in cents. */
  function SumAmounts(s: seq<Transaction>): int {
    if s == [] then 0 else s[0].amount + SumAmounts(s[1..])
  }

  lemma {:induction false} SumAmountsAppend(a: seq<Transaction>, b: seq<Transaction>)
    ensures SumAmounts(a + b) == SumAmounts(a) + SumAmounts(b)
  {
    if a == [] {
      assert a + b == b;
    } else {
      assert (a + b)[1..] == a[1..] + b;
      SumAmountsAppend(a[1..], b);
    }
  }

  /** Places `tr` among transactions that are newest first, before the first one that is not newer. */
  function InsertNewestFirst(tr: Transaction, s: seq<Transaction>): (r: seq<Transaction>)
    ensures |r| == |s| + 1
    ensures multiset(r) == multiset{tr} + multiset(s)
    ensures forall x :: x in r <==> x == tr || x in s
    ensures SumAmounts(r) == tr.amount + SumAmounts(s)
  {
    if s == [] then [tr]
    else if LexLe(s[0].timestamp, tr.timestamp) then
      assert ([tr] + s)[1..] == s;
      [tr] + s
    else
      var rest := InsertNewestFirst(tr, s[1..]);
      assert forall x :: x in s <==> x == s[0] || x in s[1..];
      assert s == [s[0]] + s[1..];
      assert ([s[0]] + rest)[1..] == rest;
      [s[0]] + rest
  }

  lemma {:induction false} InsertKeepsNewestFirst(tr: Transaction, s: seq<Transaction>)
    requires NewestFirst(s)
    ensures NewestFirst(InsertNewestFirst(tr, s))
  {
    var r := InsertNewestFirst(tr, s);
    if s == [] {
    } else if LexLe(s[0].timestamp, tr.timestamp) {
      forall j | 0 <= j < |s| ensures LexLe(s[j].timestamp, tr.timestamp) {
        if j > 0 {
          LexLeTransitive(s[j].timestamp, s[0].timestamp, tr.timestamp);
        }
      }
      assert r == [tr] + s;
    } else {
      var rest := InsertNewestFirst(tr, s[1..]);
      InsertKeepsNewestFirst(tr, s[1..]);
      LexLeTotal(s[0].timestamp, tr.timestamp);
      assert forall k :: 0 <= k < |s[1..]| ==> LexLe(s[1..][k].timestamp, s[0].timestamp);
      assert forall x :: x in rest ==> LexLe(x.timestamp, s[0].timestamp);
      assert r == [s[0]] + rest;
      forall i, j | 0 <= i < j < |r| ensures LexLe(r[j].timestamp, r[i].timestamp) {
        if i == 0 {
          assert r[j] == rest[j - 1];
        } else {
          assert r[i] == rest[i - 1] && r[j] == rest[j - 1];
        }
      }
    }
  }

  lemma {:induction false} InsertKeepsUniqueIds(tr: Transaction, s: seq<Transaction>)
    requires UniqueIds(s)
    requires forall x :: x in s ==> x.id != tr.id
    ensures UniqueIds(InsertNewestFirst(tr, s))
  {
    if s == [] {
    } else if LexLe(s[0].timestamp, tr.timestamp) {
      ConsKeepsUniqueIds(tr, s);
    } else {
      var rest := InsertNewestFirst(tr, s[1..]);
      assert forall x :: x in s[1..] ==> x in s;
      assert UniqueIds(s[1..]);
      InsertKeepsUniqueIds(tr, s[1..]);
      assert forall k :: 0 <= k < |s[1..]| ==> s[1..][k].id != s[0].id;
      assert s[0].id != tr.id;
      ConsKeepsUniqueIds(s[0], rest);
    }
  }

  /** A transaction whose id is new can go in front of transactions with unique ids. */
  lemma ConsKeepsUniqueIds(x: Transaction, s: seq<Transaction>)
    requires UniqueIds(s)
    requires forall y :: y in s ==> y.id != x.id
    ensures UniqueIds([x] + s)
  {
    var r := [x] + s;
    forall i, j | 0 <= i < j < |r| ensures r[i].id != r[j].id {
      assert r[j] == s[j - 1];
      if i > 0 {
        assert r[i] == s[i - 1];
      }
    }
  }

  /** The order of `order by timestamp desc`: the same transactions, newest first. */
  function SortNewestFirst(s: seq<Transaction>): (r: seq<Transaction>)
    ensures |r| == |s|
    ensures multiset(r) == multiset(s)
    ensures forall x :: x in r <==> x in s
    ensures NewestFirst(r)
    ensures SumAmounts(r) == SumAmounts(s)
  {
    if s == [] then []
    else
      var sorted := SortNewestFirst(s[1..]);
      assert forall x :: x in s <==> x == s[0] || x in s[1..];
      assert s == [s[0]] + s[1..];
      InsertKeepsNewestFirst(s[0], sorted);
      InsertNewestFirst(s[0], sorted)
  }

  /** Sorting keeps ids unique: no transaction is listed twice. */
  lemma {:induction false} SortKeepsUniqueIds(s: seq<Transaction>)
    requires UniqueIds(s)
    ensures UniqueIds(SortNewestFirst(s))
  {
    if s != [] {
      SortKeepsUniqueIds(s[1..]);
      assert forall k :: 0 <= k < |s[1..]| ==> s[1..][k].id != s[0].id;
      InsertKeepsUniqueIds(s[0], SortNewestFirst(s[1..]));
    }
  }

  /** A row of a listing page. `tagNames` is `group_concat` of tag names, as a multiset: its order is unspecified. */
  datatype ListedRow = ListedRow(transaction: Transaction, accountName: string, tagNames: multiset<string>)

  /**
   * The names that `group_concat(tags.name)` joins for a transaction whose
   * association rows carry `ids`: one name per association whose tag exists, and,
   * on a tag's page, only the associations with that tag, since the WHERE clause
   * drops the others before grouping.
   */
  function TagNames(tags: seq<Tag>, ids: seq<int>, scope: Scope): (names: multiset<string>)
    ensures forall n :: n in names ==>
      exists tag :: tag in tags && tag.name == n && tag.id in ids && (scope.ByTag? ==> tag.id == scope.tagId)
    ensures ids == [] ==> names == multiset{}
    ensures scope.ByTag? && scope.tagId in ids && scope.tagId in TagIds(tags) ==> names != multiset{}
    ensures !scope.ByTag? && (forall g :: g in ids ==> g in TagIds(tags)) ==> |names| == |ids|
  {
    if ids == [] then multiset{}
    else
      var rest := TagNames(tags, ids[1..], scope);
      assert forall g :: g in ids <==> g == ids[0] || g in ids[1..];
      var tag := FindTag(tags, ids[0]);
      if tag.Some? && (scope.ByTag? ==> ids[0] == scope.tagId) then multiset{tag.value.name} + rest
      else rest
  }

  /** Every association whose tag exists (on a tag's page, with that tag) contributes its tag's name. */
  lemma {:induction false} TagNamesComplete(tags: seq<Tag>, ids: seq<int>, scope: Scope)
    ensures forall i :: 0 <= i < |ids| && ids[i] in TagIds(tags) && (scope.ByTag? ==> ids[i] == scope.tagId) ==>
      FindTag(tags, ids[i]).value.name in TagNames(tags, ids, scope)
  {
    if ids != [] {
      TagNamesComplete(tags, ids[1..], scope);
      assert forall i :: 0 < i < |ids| ==> ids[i] == ids[1..][i - 1];
    }
  }

  /** On a tag's page, the tag's name appears once per association row with the tag. */
  lemma {:induction false} TagNamesCount(tags: seq<Tag>, ids: seq<int>, tagId: int)
    requires tagId in TagIds(tags)
    ensures |TagNames(tags, ids, ByTag(tagId))| == multiset(ids)[tagId]
  {
    if ids != [] {
      TagNamesCount(tags, ids[1..], tagId);
      assert ids == [ids[0]] + ids[1..];
    }
  }

  /** The names for a list of association rows split in two are those of the two parts together. */
  lemma {:induction false} TagNamesAppend(tags: seq<Tag>, a: seq<int>, b: seq<int>, scope: Scope)
    ensures TagNames(tags, a + b, scope) == TagNames(tags, a, scope) + TagNames(tags, b, scope)
  {
    if a == [] {
      assert a + b == b;
    } else {
      var head := TagNames(tags, [a[0]], scope);
      calc {
        TagNames(tags, a + b, scope);
      == { assert a + b == [a[0]] + (a[1..] + b); TagNamesCons(tags, a[0], a[1..] + b, scope); }
        head + TagNames(tags, a[1..] + b, scope);
      == { TagNamesAppend(tags, a[1..], b, scope); }
        head + (TagNames(tags, a[1..], scope) + TagNames(tags, b, scope));
      ==
        (head + TagNames(tags, a[1..], scope)) + TagNames(tags, b, scope);
      == { assert a == [a[0]] + a[1..]; TagNamesCons(tags, a[0], a[1..], scope); }
        TagNames(tags, a, scope) + TagNames(tags, b, scope);
      }
    }
  }

  /** The first association row contributes its own name, if any, ahead of the rest. */
  lemma TagNamesCons(tags: seq<Tag>, g: int, rest: seq<int>, scope: Scope)
    ensures TagNames(tags, [g] + rest, scope) == TagNames(tags, [g], scope) + TagNames(tags, rest, scope)
  {
    assert ([g] + rest)[0] == g && ([g] + rest)[1..] == rest;
    assert [g][1..] == [];
  }

  /**
   * How many association rows of transaction `id` join a tag named `n` (on a tag's
   * page, only rows with that tag): a count over the association table itself.
   */
  function NamedRows(tags: seq<Tag>, assocs: seq<TransactionTag>, id: int, scope: Scope, n: string): nat {
    if assocs == [] then 0
    else
      var a := assocs[0];
      var tag := FindTag(tags, a.tagId);
      (if a.transId == id && tag.Some? && tag.value.name == n && (scope.ByTag? ==> a.tagId == scope.tagId) then 1 else 0)
      + NamedRows(tags, assocs[1..], id, scope, n)
  }

  /** `group_concat` repeats a name once per association row of the transaction that joins a tag with that name. */
  lemma {:induction false} TagNamesPerRow(tags: seq<Tag>, assocs: seq<TransactionTag>, id: int, scope: Scope, n: string)
    ensures TagNames(tags, TagIdsOf(assocs, id), scope)[n] == NamedRows(tags, assocs, id, scope, n)
  {
    if assocs != [] {
      TagNamesPerRow(tags, assocs[1..], id, scope, n);
      var rest := TagIdsOf(assocs[1..], id);
      if assocs[0].transId == id {
        TagNamesAppend(tags, [assocs[0].tagId], rest, scope);
      }
    }
  }

  /** Each transaction with its account's name and its tags' names. */
  function Annotate(t: Tables, txns: seq<Transaction>, scope: Scope): (r: seq<ListedRow>)
    requires forall tr :: tr in txns ==> tr.accountId in AccountIds(t.accounts)
    ensures |r| == |txns|
    ensures forall i :: 0 <= i < |r| ==> r[i].transaction == txns[i]
    ensures forall i :: 0 <= i < |r| ==> Account(txns[i].accountId, r[i].accountName) in t.accounts
  {
    seq(|txns|, i requires 0 <= i < |txns| =>
      ListedRow(
        txns[i],
        FindAccount(t.accounts, txns[i].accountId).value.name,
        TagNames(t.tags, TagIdsOf(t.transactionTags, txns[i].id), scope)))
  }

  /**
   * A listing page: the transactions in scope whose timestamp is in the range,
   * grouped by id, newest first, each with its account's name and the names of its tags.
   */
  function Listing(t: Tables, scope: Scope, range: DateRange): (r: seq<ListedRow>)
    requires WellFormed(t)
    ensures forall i :: 0 <= i < |r| ==>
      r[i].transaction in t.transactions && InScope(t, r[i].transaction, scope)
      && InRange(r[i].transaction.timestamp, range)
    ensures forall i :: 0 <= i < |r| ==> Account(r[i].transaction.accountId, r[i].accountName) in t.accounts
  {
    assert forall tr :: tr in Select(t, t.transactions, scope, Some(range)) ==> tr in t.transactions;
    Annotate(t, SortNewestFirst(Select(t, t.transactions, scope, Some(range))), scope)
  }

  lemma TableIdsUnique(t: Tables)
    requires WellFormed(t)
    ensures UniqueIds(t.transactions)
  {
    forall i, j | 0 <= i < j < |t.transactions|
      ensures t.transactions[i].id != t.transactions[j].id
    {
      assert TransactionIds(t.transactions)[i] == t.transactions[i].id;
      assert TransactionIds(t.transactions)[j] == t.transactions[j].id;
    }
  }

  /** The transactions a listing shows, newest first, with unique ids. */
  lemma ListedAreSorted(t: Tables, scope: Scope, range: DateRange)
    requires WellFormed(t)
    ensures var sorted := SortNewestFirst(Select(t, t.transactions, scope, Some(range)));
      && ListedTransactions(Listing(t, scope, range)) == sorted
      && UniqueIds(sorted)
  {
    TableIdsUnique(t);
    var selected := Select(t, t.transactions, scope, Some(range));
    SortKeepsUniqueIds(selected);
    var r := Listing(t, scope, range);
    assert ListedTransactions(r) == SortNewestFirst(selected);
  }

  /**
   * Every transaction in scope and in range is listed, exactly once, nothing else
   * is, and the rows are newest first.
   */
  lemma ListingExactlyOnce(t: Tables, scope: Scope, range: DateRange)
    requires WellFormed(t)
    ensures var r := ListedTransactions(Listing(t, scope, range));
      && (forall tr :: tr in r <==> tr in t.transactions && InScope(t, tr, scope) && InRange(tr.timestamp, range))
      && (forall i, j :: 0 <= i < j < |r| ==> r[i].id != r[j].id)
      && (forall i, j :: 0 <= i < j < |r| ==> LexLe(r[j].timestamp, r[i].timestamp))
  {
    ListedAreSorted(t, scope, range);
  }

  /**
   * Each listed row carries its own account's name; outside a tag's page one tag
   * name per association row of the transaction; on a tag's page at least one
   * name and only that tag's.
   */
  lemma ListingColumns(t: Tables, scope: Scope, range: DateRange)
    requires WellFormed(t)
    ensures var r := Listing(t, scope, range);
      && (forall i :: 0 <= i < |r| ==> Account(r[i].transaction.accountId, r[i].accountName) in t.accounts)
      && (!scope.ByTag? ==> forall i :: 0 <= i < |r| ==>
            |r[i].tagNames| == |TagIdsOf(t.transactionTags, r[i].transaction.id)|)
      && (scope.ByTag? ==> forall i :: 0 <= i < |r| ==>
            r[i].tagNames != multiset{} && forall n :: n in r[i].tagNames ==> Tag(scope.tagId, n) in t.tags)
  {
    var selected := Select(t, t.transactions, scope, Some(range));
    var sorted := SortNewestFirst(selected);
    var r := Listing(t, scope, range);
    forall i | 0 <= i < |r|
      ensures r[i].transaction in t.transactions && InScope(t, r[i].transaction, scope)
      ensures r[i].tagNames == TagNames(t.tags, TagIdsOf(t.transactionTags, r[i].transaction.id), scope)
    {
      assert r[i].transaction == sorted[i];
      assert sorted[i] in selected;
    }
    forall i | 0 <= i < |r|
      ensures !scope.ByTag? ==> |r[i].tagNames| == |TagIdsOf(t.transactionTags, r[i].transaction.id)|
      ensures scope.ByTag? ==> r[i].tagNames != multiset{}
    {
      var ids := TagIdsOf(t.transactionTags, r[i].transaction.id);
      assert forall g :: g in ids ==> TransactionTag(r[i].transaction.id, g) in t.transactionTags;
    }
    forall i, n | 0 <= i < |r| && scope.ByTag? && n in r[i].tagNames
      ensures Tag(scope.tagId, n) in t.tags
    {
      var tag :| tag in t.tags && tag.name == n && tag.id == scope.tagId;
      assert tag == Tag(scope.tagId, n);
    }
  }

  /**
   * On every page, each name in a row's tags column is the name of a tag the
   * transaction is associated with (on a tag's page, that tag), repeated once per
   * association row that joins a tag of that name.
   */
  lemma ListingTagCounts(t: Tables, scope: Scope, range: DateRange)
    requires WellFormed(t)
    ensures var r := Listing(t, scope, range);
      && (forall i, n :: 0 <= i < |r| ==>
            r[i].tagNames[n] == NamedRows(t.tags, t.transactionTags, r[i].transaction.id, scope, n))
      && (forall i, n :: 0 <= i < |r| && n in r[i].tagNames ==>
            exists tag :: tag in t.tags && tag.name == n && TransactionTag(r[i].transaction.id, tag.id) in t.transactionTags
              && (scope.ByTag? ==> tag.id == scope.tagId))
  {
    var selected := Select(t, t.transactions, scope, Some(range));
    var sorted := SortNewestFirst(selected);
    var r := Listing(t, scope, range);
    forall i | 0 <= i < |r|
      ensures r[i].tagNames == TagNames(t.tags, TagIdsOf(t.transactionTags, r[i].transaction.id), scope)
    {
      assert r[i].transaction == sorted[i];
      assert sorted[i] in selected;
    }
    forall i, n | 0 <= i < |r|
      ensures r[i].tagNames[n] == NamedRows(t.tags, t.transactionTags, r[i].transaction.id, scope, n)
    {
      TagNamesPerRow(t.tags, t.transactionTags, r[i].transaction.id, scope, n);
    }
    forall i, n | 0 <= i < |r| && n in r[i].tagNames
      ensures exists tag :: (tag in t.tags && tag.name == n && TransactionTag(r[i].transaction.id, tag.id) in t.transactionTags
                             && (scope.ByTag? ==> tag.id == scope.tagId))
    {
      var ids := TagIdsOf(t.transactionTags, r[i].transaction.id);
      var tag :| tag in t.tags && tag.name == n && tag.id in ids && (scope.ByTag? ==> tag.id == scope.tagId);
      assert TransactionTag(r[i].transaction.id, tag.id) in t.transactionTags;
    }
  }

  /**
   * The tags column is complete: each listed row shows the name of every tag its
   * transaction is associated with (on a tag's page, of that tag), and on a tag's
   * page that name once per association row with the tag.
   */
  lemma ListingTagColumn(t: Tables, scope: Scope, range: DateRange)
    requires WellFormed(t)
    ensures var r := Listing(t, scope, range);
      && (forall i, tag ::
            (0 <= i < |r| && tag in t.tags && TransactionTag(r[i].transaction.id, tag.id) in t.transactionTags
             && (scope.ByTag? ==> tag.id == scope.tagId)) ==> tag.name in r[i].tagNames)
      && (scope.ByTag? ==> forall i :: 0 <= i < |r| ==>
            |r[i].tagNames| == Multiplicity(t.transactionTags, r[i].transaction.id, scope.tagId))
  {
    var selected := Select(t, t.transactions, scope, Some(range));
    var sorted := SortNewestFirst(selected);
    var r := Listing(t, scope, range);
    forall i | 0 <= i < |r|
      ensures r[i].tagNames == TagNames(t.tags, TagIdsOf(t.transactionTags, r[i].transaction.id), scope)
      ensures InScope(t, r[i].transaction, scope)
    {
      assert r[i].transaction == sorted[i];
      assert sorted[i] in selected;
    }
    forall i, tag | 0 <= i < |r| && tag in t.tags && TransactionTag(r[i].transaction.id, tag.id) in t.transactionTags
        && (scope.ByTag? ==> tag.id == scope.tagId)
      ensures tag.name in r[i].tagNames
    {
      var ids := TagIdsOf(t.transactionTags, r[i].transaction.id);
      var k :| 0 <= k < |ids| && ids[k] == tag.id;
      TagNamesComplete(t.tags, ids, scope);
      TagByKey(t.tags, tag);
      assert tag.id in TagIds(t.tags);
    }
    if scope.ByTag? {
      forall i | 0 <= i < |r|
        ensures |r[i].tagNames| == Multiplicity(t.transactionTags, r[i].transaction.id, scope.tagId)
      {
        var id := r[i].transaction.id;
        assert TransactionTag(id, scope.tagId) in t.transactionTags;
        TagNamesCount(t.tags, TagIdsOf(t.transactionTags, id), scope.tagId);
        TagIdsOfCounts(t.transactionTags, id, scope.tagId);
      }
    }
  }

  /** Under a unique key, looking a tag up by its own id finds that very tag. */
  lemma TagByKey(tags: seq<Tag>, tag: Tag)
    requires Distinct(TagIds(tags)) && tag in tags
    ensures FindTag(tags, tag.id) == Some(tag)
  {
    var k :| 0 <= k < |tags| && tags[k] == tag;
    assert TagIds(tags)[k] == tag.id;
    var found := FindTag(tags, tag.id).value;
    var j :| 0 <= j < |tags| && tags[j] == found;
    assert TagIds(tags)[j] == tag.id;
  }

  /** A tag id occurs in a transaction's tag ids once per association row pairing the two. */
  lemma {:induction false} TagIdsOfCounts(assocs: seq<TransactionTag>, id: int, tagId: int)
    ensures multiset(TagIdsOf(assocs, id))[tagId] == Multiplicity(assocs, id, tagId)
  {
    if assocs != [] {
      TagIdsOfCounts(assocs[1..], id, tagId);
    }
  }

  /** The transactions of a listing, in listing order. */
  function ListedTransactions(rows: seq<ListedRow>): seq<Transaction> {
    seq(|rows|, i requires 0 <= i < |rows| => rows[i].transaction)
  }

  /** The transactions whose id is `id` and whose timestamp is in range: the join partners of one association. */
  function WithId(txns: seq<Transaction>, id: int, range: Option<DateRange>): (r: seq<Transaction>)
    ensures forall x :: x in r ==> x in txns && x.id == id && WithinRange(x.timestamp, range)
  {
    if txns == [] then []
    else if txns[0].id == id && WithinRange(txns[0].timestamp, range) then [txns[0]] + WithId(txns[1..], id, range)
    else WithId(txns[1..], id, range)
  }

  /**
   * `transactions join transaction_tags on trans_id = id where tag_id = ?`: the
   * transaction side of every joined row, one per association row with that tag.
   */
  function TagJoin(txns: seq<Transaction>, assocs: seq<TransactionTag>, tagId: int, range: Option<DateRange>): (r: seq<Transaction>)
    ensures forall x :: x in r ==> x in txns && TransactionTag(x.id, tagId) in assocs && WithinRange(x.timestamp, range)
  {
    if assocs == [] then []
    else
      (if assocs[0].tagId == tagId then WithId(txns, assocs[0].transId, range) else [])
      + TagJoin(txns, assocs[1..], tagId, range)
  }

  /** The rows a total sums over: the scope's transactions, except that a tag's total sums its join rows. */
  function SummedRows(t: Tables, scope: Scope, range: Option<DateRange>): (r: seq<Transaction>)
    ensures forall x :: x in r ==> x in t.transactions && Matches(t, x, scope, range)
    ensures !scope.ByTag? ==> forall x :: x in t.transactions && Matches(t, x, scope, range) ==> x in r
  {
    match scope
    case ByTag(g) => TagJoin(t.transactions, t.transactionTags, g, range)
    case _ => Select(t, t.transactions, scope, range)
  }

  /** SQL's `sum`: NULL over no rows. */
  function SqlSum(rows: seq<Transaction>): (r: Option<int>)
    ensures r.None? <==> rows == []
    ensures r.Some? ==> r.value == SumAmounts(rows)
  {
    if rows == [] then None else Some(SumAmounts(rows))
  }

  /** The lifetime total a page shows: the range plays no part, and it is NULL when no row is summed. */
  function Total(t: Tables, scope: Scope): (r: Option<int>)
    ensures r.None? <==> SummedRows(t, scope, None) == []
    ensures r.Some? ==> r.value == SumAmounts(SummedRows(t, scope, None))
  {
    SqlSum(SummedRows(t, scope, None))
  }

  /**
   * The total within the range: NULL unless the page was given a non-empty
   * start or end date; then the sum over the in-range rows, and 0 (not NULL)
   * when there are none (`|| 0`).
   */
  function RangeTotal(t: Tables, scope: Scope, startDate: Option<string>, endDate: Option<string>, today: string): (r: Option<int>)
    ensures r.None? <==> !Supplied(startDate) && !Supplied(endDate)
    ensures r.Some? ==> r.value == SumAmounts(SummedRows(t, scope, Some(ResolveRange(startDate, endDate, today))))
    ensures r.Some? && SummedRows(t, scope, Some(ResolveRange(startDate, endDate, today))) == [] ==> r.value == 0
  {
    if Supplied(startDate) || Supplied(endDate) then
      Some(SqlSum(SummedRows(t, scope, Some(ResolveRange(startDate, endDate, today)))).GetOr(0))
    else None
  }

  /** The all-transactions total is the sum over the whole table, and NULL exactly when the table is empty. */
  lemma TotalOfAll(t: Tables)
    ensures Total(t, All).None? <==> t.transactions == []
    ensures Total(t, All).Some? ==> Total(t, All).value == SumAmounts(t.transactions)
  {
    SelectAll(t, t.transactions);
  }

  /** An account's total is the sum over its transactions, NULL exactly when it has none. */
  lemma TotalOfAccount(t: Tables, accountId: int)
    ensures Total(t, ByAccount(accountId)).None? <==> forall tr :: tr in t.transactions ==> tr.accountId != accountId
    ensures Total(t, ByAccount(accountId)).Some? ==>
      Total(t, ByAccount(accountId)).value == SumAmounts(Select(t, t.transactions, ByAccount(accountId), None))
  {
    var rows := Select(t, t.transactions, ByAccount(accountId), None);
    if rows != [] {
      assert rows[0] in rows;
    }
  }

  /**
   * A tag's total is NULL exactly when no association row carries the tag; otherwise
   * it counts each transaction once per association row with the tag.
   */
  lemma TotalOfTag(t: Tables, tagId: int)
    requires WellFormed(t)
    ensures Total(t, ByTag(tagId)).None? <==> forall a :: a in t.transactionTags ==> a.tagId != tagId
    ensures Total(t, ByTag(tagId)).Some? ==>
      Total(t, ByTag(tagId)).value == WeightedSum(t.transactions, t.transactionTags, tagId, None)
  {
    TagJoinEmpty(t.transactions, t.transactionTags, tagId);
    TagJoinWeighted(t.transactions, t.transactionTags, tagId, None);
  }

  /** Without a range, an association row whose transaction exists always joins. */
  lemma {:induction false} TagJoinEmpty(txns: seq<Transaction>, assocs: seq<TransactionTag>, tagId: int)
    requires forall a :: a in assocs ==> a.transId in TransactionIds(txns)
    ensures TagJoin(txns, assocs, tagId, None) == [] <==> forall a :: a in assocs ==> a.tagId != tagId
  {
    if assocs != [] {
      assert forall a :: a in assocs[1..] ==> a in assocs;
      TagJoinEmpty(txns, assocs[1..], tagId);
      assert assocs[0] in assocs;
      WithIdFinds(txns, assocs[0].transId);
      assert forall a :: a in assocs <==> a == assocs[0] || a in assocs[1..];
    }
  }

  /** Without a range, a transaction id joins exactly when the table holds a row with it. */
  lemma {:induction false} WithIdFinds(txns: seq<Transaction>, id: int)
    ensures WithId(txns, id, None) != [] <==> id in TransactionIds(txns)
  {
    if txns != [] {
      WithIdFinds(txns[1..], id);
      assert TransactionIds(txns) == [txns[0].id] + TransactionIds(txns[1..]);
    }
  }

  /** How many association rows pair transaction `id` with tag `tagId`. */
  function Multiplicity(assocs: seq<TransactionTag>, id: int, tagId: int): nat {
    if assocs == [] then 0
    else (if assocs[0] == TransactionTag(id, tagId) then 1 else 0) + Multiplicity(assocs[1..], id, tagId)
  }

  /** Each in-range transaction's amount, counted once per association row it has with the tag. */
  function WeightedSum(txns: seq<Transaction>, assocs: seq<TransactionTag>, tagId: int, range: Option<DateRange>): int {
    if txns == [] then 0
    else
      (if WithinRange(txns[0].timestamp, range) then txns[0].amount * Multiplicity(assocs, txns[0].id, tagId) else 0)
      + WeightedSum(txns[1..], assocs, tagId, range)
  }

  lemma {:induction false} WeightedSumStep(txns: seq<Transaction>, a: TransactionTag, rest: seq<TransactionTag>, tagId: int, range: Option<DateRange>)
    ensures WeightedSum(txns, [a] + rest, tagId, range) ==
      WeightedSum(txns, rest, tagId, range) + (if a.tagId == tagId then SumAmounts(WithId(txns, a.transId, range)) else 0)
  {
    if txns != [] {
      WeightedSumStep(txns[1..], a, rest, tagId, range);
      var tr := txns[0];
      assert ([a] + rest)[1..] == rest;
      var m := Multiplicity(rest, tr.id, tagId);
      assert Multiplicity([a] + rest, tr.id, tagId) == (if a == TransactionTag(tr.id, tagId) then 1 else 0) + m;
      assert tr.amount * ((if a == TransactionTag(tr.id, tagId) then 1 else 0) + m)
          == (if a == TransactionTag(tr.id, tagId) then tr.amount else 0) + tr.amount * m;
    }
  }

  /**
   * A tag's total sums over association rows, not transactions: each transaction
   * counts once per (transaction, tag) row, so a duplicated pair counts twice.
   */
  lemma {:induction false} TagJoinWeighted(txns: seq<Transaction>, assocs: seq<TransactionTag>, tagId: int, range: Option<DateRange>)
    ensures SumAmounts(TagJoin(txns, assocs, tagId, range)) == WeightedSum(txns, assocs, tagId, range)
  {
    if assocs == [] {
      WeightedSumEmpty(txns, tagId, range);
    } else {
      var a := assocs[0];
      TagJoinWeighted(txns, assocs[1..], tagId, range);
      SumAmountsAppend(if a.tagId == tagId then WithId(txns, a.transId, range) else [],
                       TagJoin(txns, assocs[1..], tagId, range));
      assert assocs == [a] + assocs[1..];
      WeightedSumStep(txns, a, assocs[1..], tagId, range);
    }
  }

  lemma {:induction false} WeightedSumEmpty(txns: seq<Transaction>, tagId: int, range: Option<DateRange>)
    ensures WeightedSum(txns, [], tagId, range) == 0
  {
    if txns != [] {
      WeightedSumEmpty(txns[1..], tagId, range);
    }
  }

  /** Without duplicated pairs, the weighted sum is the plain sum over the tag's in-range transactions. */
  lemma {:induction false} WeightedSumWithoutDuplicates(t: Tables, txns: seq<Transaction>, tagId: int, range: Option<DateRange>)
    requires forall tr :: tr in txns ==> Multiplicity(t.transactionTags, tr.id, tagId) <= 1
    ensures WeightedSum(txns, t.transactionTags, tagId, range) == SumAmounts(Select(t, txns, ByTag(tagId), range))
  {
    if txns != [] {
      assert txns[0] in txns;
      assert forall x :: x in txns[1..] ==> x in txns;
      WeightedSumWithoutDuplicates(t, txns[1..], tagId, range);
      UndupedHead(t, txns, tagId, range);
    }
  }

  /** The first transaction adds the same amount to both sums when it has at most one row with the tag. */
  lemma UndupedHead(t: Tables, txns: seq<Transaction>, tagId: int, range: Option<DateRange>)
    requires txns != [] && Multiplicity(t.transactionTags, txns[0].id, tagId) <= 1
    ensures WeightedSum(txns, t.transactionTags, tagId, range) - WeightedSum(txns[1..], t.transactionTags, tagId, range)
      == SumAmounts(Select(t, txns, ByTag(tagId), range)) - SumAmounts(Select(t, txns[1..], ByTag(tagId), range))
  {
    var tr := txns[0];
    MultiplicityCounts(t.transactionTags, tr.id, tagId);
    var m := Multiplicity(t.transactionTags, tr.id, tagId);
    var chosen := Select(t, txns[1..], ByTag(tagId), range);
    if Matches(t, tr, ByTag(tagId), range) {
      assert m == 1;
      assert Select(t, txns, ByTag(tagId), range) == [tr] + chosen;
      assert ([tr] + chosen)[1..] == chosen;
    } else if WithinRange(tr.timestamp, range) {
      assert m == 0;
    }
  }

  lemma {:induction false} MultiplicityCounts(assocs: seq<TransactionTag>, id: int, tagId: int)
    ensures Multiplicity(assocs, id, tagId) > 0 <==> TransactionTag(id, tagId) in assocs
  {
    if assocs != [] {
      MultiplicityCounts(assocs[1..], id, tagId);
      assert forall a :: a in assocs <==> a == assocs[0] || a in assocs[1..];
    }
  }

  /**
   * For the all-transactions and per-account pages, the range total is the sum of
   * the amounts of the transactions the page lists.
   */
  lemma RangeTotalMatchesListing(t: Tables, scope: Scope, startDate: Option<string>, endDate: Option<string>, today: string)
    requires WellFormed(t) && !scope.ByTag?
    requires Supplied(startDate) || Supplied(endDate)
    ensures RangeTotal(t, scope, startDate, endDate, today) ==
      Some(SumAmounts(ListedTransactions(Listing(t, scope, ResolveRange(startDate, endDate, today)))))
  {
    var range := ResolveRange(startDate, endDate, today);
    var selected := Select(t, t.transactions, scope, Some(range));
    assert ListedTransactions(Listing(t, scope, range)) == SortNewestFirst(selected);
  }

  /**
   * On a tag's page the range total counts each listed transaction once per
   * association row it has with the tag; when no pair is duplicated it is the sum
   * of the listed amounts.
   */
  lemma TagRangeTotal(t: Tables, tagId: int, startDate: Option<string>, endDate: Option<string>, today: string)
    requires WellFormed(t)
    requires Supplied(startDate) || Supplied(endDate)
    ensures RangeTotal(t, ByTag(tagId), startDate, endDate, today) ==
      Some(WeightedSum(t.transactions, t.transactionTags, tagId, Some(ResolveRange(startDate, endDate, today))))
    ensures (forall tr :: tr in t.transactions ==> Multiplicity(t.transactionTags, tr.id, tagId) <= 1) ==>
      RangeTotal(t, ByTag(tagId), startDate, endDate, today) ==
        Some(SumAmounts(ListedTransactions(Listing(t, ByTag(tagId), ResolveRange(startDate, endDate, today)))))
  {
    var range := ResolveRange(startDate, endDate, today);
    TagJoinWeighted(t.transactions, t.transactionTags, tagId, Some(range));
    if forall tr :: tr in t.transactions ==> Multiplicity(t.transactionTags, tr.id, tagId) <= 1 {
      WeightedSumWithoutDuplicates(t, t.transactions, tagId, Some(range));
      assert ListedTransactions(Listing(t, ByTag(tagId), range))
          == SortNewestFirst(Select(t, t.transactions, ByTag(tagId), Some(range)));
    }
  }
}
