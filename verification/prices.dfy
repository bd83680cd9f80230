/** The `/update-prices-shopify` handler (src/index.js:66-112) once the
    uploaded file has been parsed: patch `updated_price` from every line,
    select the rows with a pending price, and send one price update per
    selected row to the remote, in selection order.

    The answers of the remote to successive update calls are a parameter:
    the k-th call receives `replies[k]`. */
module PriceSync {
  import opened Wrappers
  import opened JsString
  import opened Shopify
  import opened Store

  /** Every row carries a pending price (what the selection guarantees). */
  predicate AllPending(rows: Table) {
    forall i :: 0 <= i < |rows| ==> rows[i].updatedPrice.Some?
  }

  /** The update call made for one selected row. */
  function UpdateFor(v: Variant): (u: PriceUpdate)
    requires v.updatedPrice.Some?
    ensures v.updatedPrice == Some(u.price)
    ensures u.key == VariantKey(v.id)
    ensures StartsWith(v.id, VariantGidPrefix) ==> VariantGidPrefix + u.key == v.id
    ensures !Contains(v.id, VariantGidPrefix) ==> u.key == v.id
  {
    PriceUpdate(VariantKey(v.id), v.updatedPrice.value)
  }

  /** The update calls made, in order, and whether the loop finished. */
  datatype Pushed = Pushed(calls: seq<PriceUpdate>, result: Result<(), Error>)

  /** `for (const product of products) await shopify.productVariant.update(...)`:
      one awaited call per selected row; the first call that throws ends the
      loop, and later rows are not sent. */
  function PushAll(pending: Table, replies: seq<UpdateReply>): (run: Pushed)
    requires AllPending(pending)
    requires |replies| >= |pending|
    ensures |run.calls| <= |pending|
    ensures forall k :: 0 <= k < |run.calls| ==> run.calls[k] == UpdateFor(pending[k])
    ensures run.result.Success? <==> forall k :: 0 <= k < |pending| ==> replies[k].Updated?
    ensures run.result.Success? ==> |run.calls| == |pending|
    ensures run.result.Failure? ==>
              && |run.calls| > 0
              && (forall k :: 0 <= k < |run.calls| - 1 ==> replies[k].Updated?)
              && replies[|run.calls| - 1].Rejected?
              && run.result.error == RemoteError(replies[|run.calls| - 1].reason)
  {
    if |pending| == 0 then Pushed([], Success(()))
    else
      var call := UpdateFor(pending[0]);
      match replies[0]
      case Rejected(reason) => Pushed([call], Failure(RemoteError(reason)))
      case Updated =>
        var rest := PushAll(pending[1..], replies[1..]);
        Pushed([call] + rest.calls, rest.result)
  }

  /** What the handler did: the table afterwards, the update calls sent, and
      its answer. */
  datatype PriceRun = PriceRun(table: Table, calls: seq<PriceUpdate>, response: Result<(), Error>)

  /** The handler on the parsed lines `rows` of the uploaded file, starting
      from table `t`, with the patches finished before the selection runs. */
  function UpdatePrices(t: Table, rows: seq<CsvRow>, replies: seq<UpdateReply>): (u: PriceRun)
    requires |replies| >= |t|
    ensures |u.table| == |t|
    ensures forall i :: 0 <= i < |t| ==>
              && u.table[i].id == t[i].id
              && u.table[i].title == t[i].title
              && u.table[i].originalPrice == t[i].originalPrice
              && u.table[i].updatedPrice == (if LastPrice(rows, t[i].id).Some? then LastPrice(rows, t[i].id)
                                             else t[i].updatedPrice)
    ensures |u.calls| <= |Pending(u.table)|
    ensures forall k :: 0 <= k < |u.calls| ==> u.calls[k] == UpdateFor(Pending(u.table)[k])
    ensures u.response.Success? <==> forall k :: 0 <= k < |Pending(u.table)| ==> replies[k].Updated?
    ensures u.response.Success? ==> |u.calls| == |Pending(u.table)|
    ensures u.response.Failure? ==>
              && |u.calls| > 0
              && (forall k :: 0 <= k < |u.calls| - 1 ==> replies[k].Updated?)
              && replies[|u.calls| - 1].Rejected?
              && u.response.error == RemoteError(replies[|u.calls| - 1].reason)
  {
    var patched := PatchAll(t, rows);
    var pending := Pending(patched);
    assert AllPending(pending) by {
      forall i | 0 <= i < |pending| ensures pending[i].updatedPrice.Some? {
        assert pending[i] in pending;
      }
    }
    var pushed := PushAll(pending, replies);
    PriceRun(patched, pushed.calls, pushed.result)
  }

  /** A successful push leaves every pending price in place: the handler
      never clears `updated_price`, so the same rows are selected again on
      the next upload. */
  lemma PushKeepsPendingPrices(t: Table, rows: seq<CsvRow>, replies: seq<UpdateReply>)
    requires |replies| >= |t|
    ensures Pending(UpdatePrices(t, rows, replies).table) == Pending(PatchAll(t, rows))
    ensures forall i :: 0 <= i < |t| && LastPrice(rows, t[i].id).Some? ==>
              UpdatePrices(t, rows, replies).table[i] in Pending(UpdatePrices(t, rows, replies).table)
  {
    var u := UpdatePrices(t, rows, replies);
    forall i | 0 <= i < |t| && LastPrice(rows, t[i].id).Some?
      ensures u.table[i] in Pending(u.table)
    {
      assert u.table[i] in u.table;
    }
  }

  /** The worked example: a file setting 12.50 on the only variant patches
      that row and sends one update with the id unchanged, since the id does
      not carry the variant namespace. */
  lemma UpdatePricesExample()
    ensures var u := UpdatePrices([Variant("gid://x/1", "A", "10.00", None)],
                                  [CsvRow("gid://x/1", "12.50")], [Updated]);
            && u.table == [Variant("gid://x/1", "A", "10.00", Some("12.50"))]
            && u.calls == [PriceUpdate("gid://x/1", "12.50")]
            && u.response.Success?
  {
    var t := [Variant("gid://x/1", "A", "10.00", None)];
    var rows := [CsvRow("gid://x/1", "12.50")];
    var u := UpdatePrices(t, rows, [Updated]);
    assert LastPrice(rows, "gid://x/1") == Some("12.50");
    assert u.table[0] == Variant("gid://x/1", "A", "10.00", Some("12.50"));
    assert IndexOf("gid://x/1", VariantGidPrefix, 0) == None;
    assert VariantKey("gid://x/1") == "gid://x/1";
    assert Pending(u.table) == u.table;
  }

  /** A stored global variant id is sent as its bare numeric key. */
  lemma UpdateForGid(key: string, title: string, original: string, price: string)
    ensures UpdateFor(Variant(VariantGidPrefix + key, title, original, Some(price))) == PriceUpdate(key, price)
  {
    VariantKeyOfGid(key);
  }
}
