/** The `/sync-products` handler (src/index.js:41-58): fetch every variant,
    truncate the table, insert the fetched records one by one, and answer
    with the fetched list. */
module Sync {
  import opened Wrappers
  import opened Shopify
  import opened Pagination
  import opened Store

  /** The queries sent to the remote, the table afterwards, and the handler's
      answer: the fetched list, or the error that ended it. */
  datatype Synced = Synced(requests: seq<Cursor>, table: Table, response: Result<seq<Product>, Error>)

  /** A full resync against a remote answering `replies`, starting from table
      `t`. */
  function SyncProducts(replies: seq<Reply>, t: Table): (s: Synced)
    requires Ends(replies)
    ensures s.requests == FetchAllProductVariants(replies).requests
    ensures s.response.Success? ==> UniqueIds(s.table)
    ensures UniqueIds(t) ==> UniqueIds(s.table)
    ensures FetchAllProductVariants(replies).outcome.Failure? ==>
              s.table == t && s.response == Failure(RemoteError(FetchAllProductVariants(replies).outcome.error))
    ensures s.response.Success? <==>
              FetchAllProductVariants(replies).outcome.Success? && DistinctIds(FetchAllProductVariants(replies).outcome.value)
    ensures s.response.Success? ==>
              && s.response.value == FetchAllProductVariants(replies).outcome.value
              && s.table == RowsOf(s.response.value)
  {
    var run := FetchAllProductVariants(replies);
    match run.outcome
    case Failure(e) => Synced(run.requests, t, Failure(RemoteError(e)))
    case Success(products) =>
      var inserted := InsertEach([], products);
      assert [] + RowsOf(products) == RowsOf(products);
      Synced(run.requests, inserted.table,
             if inserted.error.None? then Success(products) else Failure(inserted.error.value))
  }

  /** After a successful resync the table holds exactly the fetched records,
      each with no pending price, and nothing that was there before unless
      the remote sent it again. */
  lemma ResyncReplacesTable(replies: seq<Reply>, t: Table)
    requires Ends(replies)
    requires SyncProducts(replies, t).response.Success?
    ensures forall v :: v in SyncProducts(replies, t).table <==>
              exists p :: p in SyncProducts(replies, t).response.value && v == RowOf(p)
    ensures forall v :: v in SyncProducts(replies, t).table ==> v.updatedPrice.None?
  {
    var s := SyncProducts(replies, t);
    RowsOfMembers(s.response.value);
  }

  /** The table a resync leaves does not depend on the table it started from,
      whenever the fetch succeeds. */
  lemma ResyncForgetsOldTable(replies: seq<Reply>, t1: Table, t2: Table)
    requires Ends(replies)
    requires FetchAllProductVariants(replies).outcome.Success?
    ensures SyncProducts(replies, t1) == SyncProducts(replies, t2)
  {
  }

  /** Running the resync twice against an unchanged remote gives the same
      table, the same answer and the same queries as running it once. */
  lemma ResyncIdempotent(replies: seq<Reply>, t: Table)
    requires Ends(replies)
    ensures SyncProducts(replies, SyncProducts(replies, t).table) == SyncProducts(replies, t)
  {
  }

  /** The one-page example: a remote with a single variant and no next page
      leaves exactly that variant in the table, with no pending price. */
  lemma SyncOnePageExample(t: Table)
    ensures var replies := [Success(Connection([Node("gid://x/1", "A", "10.00")], PageInfo(false, None)))];
            Ends(replies)
            && SyncProducts(replies, t).requests == [None]
            && SyncProducts(replies, t).table == [Variant("gid://x/1", "A", "10.00", None)]
  {
    var replies: seq<Reply> := [Success(Connection([Node("gid://x/1", "A", "10.00")], PageInfo(false, None)))];
    assert Final(replies[0]);
    assert replies[..1] == replies;
  }

  /** The replacement is not atomic: when the remote sends the same id twice,
      the second insert fails after the truncate and the first insert, so the
      old rows are gone and only part of the new list is stored. */
  lemma ResyncNotAtomic(prior: Variant)
    ensures var replies := [Success(Connection([Node("v", "A", "1"), Node("v", "B", "2")], PageInfo(false, None)))];
            Ends(replies)
            && SyncProducts(replies, [prior]).response == Failure(DuplicateId("v"))
            && SyncProducts(replies, [prior]).table == [Variant("v", "A", "1", None)]
  {
    var replies: seq<Reply> := [Success(Connection([Node("v", "A", "1"), Node("v", "B", "2")], PageInfo(false, None)))];
    assert Final(replies[0]);
    assert replies[..1] == replies;
    var ps := [Product("v", "A", "1"), Product("v", "B", "2")];
    assert ProductsOf(replies[0].value.edges) == ps;
    assert AllProducts(replies) == ps + AllProducts([]) == ps;
    var run := FetchAllProductVariants(replies);
    assert |run.requests| == 1;
    assert run.outcome.Success?;
    assert run.outcome == Success(ps);
    var first: Table := [RowOf(ps[0])];
    assert first[0].id == "v";
    assert Insert([], ps[0]) == Success(first);
    assert Insert(first, ps[1]) == Failure(DuplicateId("v"));
    assert InsertEach(first, ps[1..]) == Inserted(first, Some(DuplicateId("v")));
    assert InsertEach([], ps) == Inserted([RowOf(ps[0])], Some(DuplicateId("v")));
  }
}
