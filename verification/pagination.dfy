/** `fetchAllProductVariants` (src/index.js:159-177): the cursor loop that
    fetches pages until one says there is no next page.

    The remote is given as the sequence of answers it returns to successive
    page queries: the k-th query receives `replies[k]`. The loop is
    deterministic, so this covers every behaviour of a remote, whatever it
    does with the cursors it is sent; the cursors themselves are part of the
    result (`requests`), so that what the loop asks for can be stated. */
module Pagination {
  import opened Wrappers
  import opened Shopify

  /** A reply after which the loop makes no further query: an error (thrown
      out of the loop) or a last page. */
  predicate Final(reply: Reply) {
    reply.Failure? || !reply.value.pageInfo.hasNextPage
  }

  /** The remote's chain of pages ends: some reply is final. A remote that
      answers `hasNextPage: true` forever keeps the source looping forever. */
  predicate Ends(replies: seq<Reply>) {
    exists i :: 0 <= i < |replies| && Final(replies[i])
  }

  /** The index of the first final reply: the loop makes exactly
      `FirstFinal(replies) + 1` queries. */
  function FirstFinal(replies: seq<Reply>): (n: nat)
    requires Ends(replies)
    ensures n < |replies| && Final(replies[n])
    ensures forall j :: 0 <= j < n ==> !Final(replies[j])
  {
    if Final(replies[0]) then 0
    else
      assert Final(replies[1..][FirstFinalWitness(replies) - 1]);
      1 + FirstFinal(replies[1..])
  }

  /** Some final position, used only to show that the tail still ends. */
  ghost function FirstFinalWitness(replies: seq<Reply>): (i: nat)
    requires Ends(replies)
    requires !Final(replies[0])
    ensures 0 < i < |replies| && Final(replies[i])
  {
    var i :| 0 <= i < |replies| && Final(replies[i]); i
  }

  /** The products of every successful reply, in reply order (the reference
      for the loop's accumulated `allVariants`). */
  function AllProducts(replies: seq<Reply>): seq<Product> {
    if |replies| == 0 then []
    else
      (if replies[0].Success? then ProductsOf(replies[0].value.edges) else [])
      + AllProducts(replies[1..])
  }

  /** The number of edges over all successful replies. */
  function EdgeCount(replies: seq<Reply>): nat {
    if |replies| == 0 then 0
    else
      (if replies[0].Success? then |replies[0].value.edges| else 0)
      + EdgeCount(replies[1..])
  }

  /** The list holds one record per edge of every page fetched. */
  lemma {:induction false} AllProductsLength(replies: seq<Reply>)
    ensures |AllProducts(replies)| == EdgeCount(replies)
  {
    if |replies| > 0 {
      AllProductsLength(replies[1..]);
    }
  }

  /** Fetching page after page concatenates the pages' records. A fact about
      the reference `AllProducts` alone, kept as documentation: it is why the
      loop's `allVariants.concat(...)`, done once per page, gathers the same
      list as taking all pages at once. */
  lemma {:induction false} AllProductsAppend(a: seq<Reply>, b: seq<Reply>)
    ensures AllProducts(a + b) == AllProducts(a) + AllProducts(b)
  {
    if |a| == 0 {
      assert a + b == b;
    } else {
      assert (a + b)[1..] == a[1..] + b;
      AllProductsAppend(a[1..], b);
    }
  }

  /** What the loop did: the cursor of every query it sent, in order, and
      what it resolved to (the full list, or the first error). */
  datatype Run = Run(requests: seq<Cursor>, outcome: Result<seq<Product>, string>)

  /** The loop from a given cursor on, with the records gathered so far in
      `all`, consuming `replies` from the front. */
  function Paginate(replies: seq<Reply>, cursor: Cursor, all: seq<Product>): (run: Run)
    requires Ends(replies)
    ensures |run.requests| == FirstFinal(replies) + 1
    ensures run.requests[0] == cursor
    ensures forall k :: 0 < k < |run.requests| ==>
              replies[k - 1].Success? && run.requests[k] == replies[k - 1].value.pageInfo.endCursor
    ensures run.outcome.Success? <==> replies[FirstFinal(replies)].Success?
    ensures run.outcome.Failure? ==> run.outcome.error == replies[FirstFinal(replies)].error
    ensures run.outcome.Success? ==> run.outcome.value == all + AllProducts(replies[..FirstFinal(replies) + 1])
    decreases |replies|
  {
    var page := FetchProductVariants(replies[0]);
    if page.Failure? then
      Run([cursor], Failure(page.error))
    else if !page.value.hasNextPage then
      assert replies[..1] == [replies[0]];
      Run([cursor], Success(all + page.value.products))
    else
      var rest := Paginate(replies[1..], page.value.endCursor, all + page.value.products);
      assert replies[..FirstFinal(replies) + 1] == [replies[0]] + replies[1..][..FirstFinal(replies[1..]) + 1];
      Run([cursor] + rest.requests, rest.outcome)
  }

  /** `fetchAllProductVariants()`: the first query uses the `null` cursor,
      each later one the previous page's `endCursor`; the loop stops right
      after the first page without a next page, or at the first error, which
      is rethrown without any partial list. */
  function FetchAllProductVariants(replies: seq<Reply>): (run: Run)
    requires Ends(replies)
    ensures |run.requests| == FirstFinal(replies) + 1
    ensures run.requests[0] == None
    ensures forall k :: 0 < k < |run.requests| ==>
              replies[k - 1].Success? && run.requests[k] == replies[k - 1].value.pageInfo.endCursor
    ensures run.outcome.Failure? <==> replies[|run.requests| - 1].Failure?
    ensures run.outcome.Failure? ==> run.outcome.error == replies[|run.requests| - 1].error
    ensures run.outcome.Success? ==>
              && run.outcome.value == AllProducts(replies[..|run.requests|])
              && |run.outcome.value| == EdgeCount(replies[..|run.requests|])
  {
    var run := Paginate(replies, None, []);
    var n := |run.requests|;
    assert [] + AllProducts(replies[..n]) == AllProducts(replies[..n]);
    AllProductsLength(replies[..n]);
    run
  }
}
