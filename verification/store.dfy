/** The local `products` table and the four queries the service runs on it:
    `insert`, `truncate` (src/index.js:46-51), `findById(id).patch(...)`
    (src/index.js:88-90) and `whereNotNull('updated_price')`
    (src/index.js:96). Rows are kept in insertion order; the selection has
    no ORDER BY, so taking it in that order is a choice of the model. */
module Store {
  import opened Wrappers
  import opened Shopify

  /** One row of the `products` table. `updatedPrice` is `None` (SQL NULL)
      until a price file has set it. */
  datatype Variant = Variant(id: string, title: string, originalPrice: string, updatedPrice: Option<string>)

  type Table = seq<Variant>

  /** Why a store operation failed. */
  datatype Error = RemoteError(reason: string) | DuplicateId(id: string)

  predicate HasId(t: Table, id: string) {
    exists i :: 0 <= i < |t| && t[i].id == id
  }

  /** The `id` column is the table's key: no two rows share it. */
  predicate UniqueIds(t: Table) {
    forall i, j :: 0 <= i < j < |t| ==> t[i].id != t[j].id
  }

  /** The row an `insert(product)` creates: the three given columns, and
      `updated_price` left NULL. */
  function RowOf(p: Product): Variant {
    Variant(p.id, p.title, p.originalPrice, None)
  }

  /** The rows a sequence of inserts creates, in order. */
  function RowsOf(ps: seq<Product>): Table {
    seq(|ps|, i requires 0 <= i < |ps| => RowOf(ps[i]))
  }

  /** The rows of a sequence of inserts are exactly the rows of its
      products. */
  lemma RowsOfMembers(ps: seq<Product>)
    ensures forall v :: v in RowsOf(ps) <==> exists p :: p in ps && v == RowOf(p)
  {
    forall v | v in RowsOf(ps)
      ensures exists p :: p in ps && v == RowOf(p)
    {
      var i :| 0 <= i < |ps| && RowsOf(ps)[i] == v;
      assert ps[i] in ps;
    }
    forall p | p in ps
      ensures RowOf(p) in RowsOf(ps)
    {
      var i :| 0 <= i < |ps| && ps[i] == p;
      assert RowsOf(ps)[i] == RowOf(p);
    }
  }

  /** `Products.query().insert(product)`: appends the row, or fails on an id
      that is already stored. */
  function Insert(t: Table, p: Product): (r: Result<Table, Error>)
    ensures r.Success? <==> !HasId(t, p.id)
    ensures r.Failure? ==> r.error == DuplicateId(p.id)
    ensures r.Success? ==> |r.value| == |t| + 1 && r.value[..|t|] == t && r.value[|t|] == RowOf(p)
    ensures r.Success? && UniqueIds(t) ==> UniqueIds(r.value)
  {
    if HasId(t, p.id) then Failure(DuplicateId(p.id)) else Success(t + [RowOf(p)])
  }

  /** No two products share an id. */
  predicate DistinctIds(ps: seq<Product>) {
    forall i, j :: 0 <= i < j < |ps| ==> ps[i].id != ps[j].id
  }

  /** The table after one awaited insert per product, and the first error.
      Each insert commits on its own, so the rows inserted before a failing
      one stay. */
  datatype Inserted = Inserted(table: Table, error: Option<Error>)

  /** Every product's id is new to the table. */
  predicate AllNew(t: Table, ps: seq<Product>) {
    forall i :: 0 <= i < |ps| ==> !HasId(t, ps[i].id)
  }

  /** The insert loop stopped at product `k`: the products before it were
      distinct and new and all got stored, and product `k`'s id was then
      already in the table, which is the error reported. */
  predicate FirstDuplicateAt(t: Table, ps: seq<Product>, k: nat, s: Inserted)
    requires k < |ps|
  {
    && DistinctIds(ps[..k]) && AllNew(t, ps[..k])
    && HasId(t + RowsOf(ps[..k]), ps[k].id)
    && s.error == Some(DuplicateId(ps[k].id))
    && s.table == t + RowsOf(ps[..k])
  }

  /** `for (const product of products) await Products.query().insert(product)`:
      the inserts run in order and the first failing one ends the loop. */
  function InsertEach(t: Table, ps: seq<Product>): (s: Inserted)
    ensures UniqueIds(t) ==> UniqueIds(s.table)
    ensures s.error.None? <==> DistinctIds(ps) && AllNew(t, ps)
    ensures s.error.None? ==> s.table == t + RowsOf(ps)
    ensures s.error.Some? ==> exists k :: 0 <= k < |ps| && FirstDuplicateAt(t, ps, k, s)
    decreases |ps|
  {
    if |ps| == 0 then Inserted(t, None)
    else
      match Insert(t, ps[0])
      case Failure(e) =>
        InsertFailureHere(t, ps);
        Inserted(t, Some(e))
      case Success(t') =>
        var rest := InsertEach(t', ps[1..]);
        InsertStep(t, ps);
        assert RowsOf(ps) == [RowOf(ps[0])] + RowsOf(ps[1..]);
        assert t + RowsOf(ps) == t' + RowsOf(ps[1..]);
        if rest.error.Some? then
          InsertFailureShift(t, ps, rest);
          rest
        else
          rest
  }

  /** A failure on the first product stores nothing and names that
      product's id. */
  lemma InsertFailureHere(t: Table, ps: seq<Product>)
    requires |ps| > 0 && HasId(t, ps[0].id)
    ensures !AllNew(t, ps)
    ensures exists k :: 0 <= k < |ps| && FirstDuplicateAt(t, ps, k, Inserted(t, Some(DuplicateId(ps[0].id))))
  {
    assert ps[..0] == [] && t + RowsOf([]) == t;
    assert DistinctIds(ps[..0]) && AllNew(t, ps[..0]);
    assert FirstDuplicateAt(t, ps, 0, Inserted(t, Some(DuplicateId(ps[0].id))));
  }

  /** A failure at position `k` of the tail is a failure at position
      `k + 1` of the whole input, with the first row already in place. */
  lemma InsertFailureShift(t: Table, ps: seq<Product>, s: Inserted)
    requires |ps| > 0 && !HasId(t, ps[0].id)
    requires exists k :: 0 <= k < |ps[1..]| && FirstDuplicateAt(t + [RowOf(ps[0])], ps[1..], k, s)
    ensures exists k :: 0 <= k < |ps| && FirstDuplicateAt(t, ps, k, s)
  {
    var k :| 0 <= k < |ps[1..]| && FirstDuplicateAt(t + [RowOf(ps[0])], ps[1..], k, s);
    var pre := ps[..k + 1];
    assert pre[1..] == ps[1..][..k];
    assert pre[0] == ps[0];
    InsertStep(t, pre);
    assert RowsOf(pre) == [RowOf(ps[0])] + RowsOf(ps[1..][..k]);
    assert s.table == t + RowsOf(pre);
    assert ps[1..][k] == ps[k + 1];
    assert FirstDuplicateAt(t, ps, k + 1, s);
  }

  /** Appending a row adds exactly its id to the stored ids. */
  lemma HasIdAppend(t: Table, v: Variant, id: string)
    ensures HasId(t + [v], id) <==> HasId(t, id) || v.id == id
  {
    if HasId(t, id) {
      var j :| 0 <= j < |t| && t[j].id == id;
      assert (t + [v])[j] == t[j];
    }
    if v.id == id {
      assert (t + [v])[|t|] == v;
    }
    if HasId(t + [v], id) {
      var j :| 0 <= j < |t + [v]| && (t + [v])[j].id == id;
      if j < |t| {
        assert (t + [v])[j] == t[j];
      }
    }
  }

  /** How one successful insert relates the conditions on the whole input to
      those on its tail. */
  lemma InsertStep(t: Table, ps: seq<Product>)
    requires |ps| > 0 && !HasId(t, ps[0].id)
    ensures DistinctIds(ps) && AllNew(t, ps)
            <==> DistinctIds(ps[1..]) && AllNew(t + [RowOf(ps[0])], ps[1..])
  {
    var t1 := t + [RowOf(ps[0])];
    forall i | 0 < i < |ps|
      ensures HasId(t1, ps[i].id) <==> HasId(t, ps[i].id) || ps[0].id == ps[i].id
    {
      HasIdAppend(t, RowOf(ps[0]), ps[i].id);
    }
    assert forall i :: 0 <= i < |ps[1..]| ==> ps[1..][i] == ps[i + 1];
  }
  /** One parsed line of the uploaded price file: the `product_id` and
      `new_price` columns, as strings. */
  datatype CsvRow = CsvRow(productId: string, newPrice: string)

  /** `Products.query().findById(id).patch({ updated_price: price })`: sets
      `updated_price` on the row with that id and changes nothing else; an
      id without a row patches nothing and is not an error. */
  function PatchById(t: Table, id: string, price: string): (r: Table)
    ensures |r| == |t|
    ensures forall i :: 0 <= i < |t| ==>
              r[i].id == t[i].id && r[i].title == t[i].title && r[i].originalPrice == t[i].originalPrice
    ensures forall i :: 0 <= i < |t| && t[i].id != id ==> r[i] == t[i]
    ensures forall i :: 0 <= i < |t| && t[i].id == id ==> r[i].updatedPrice == Some(price)
    ensures !HasId(t, id) ==> r == t
  {
    if |t| == 0 then []
    else
      [if t[0].id == id then t[0].(updatedPrice := Some(price)) else t[0]]
      + PatchById(t[1..], id, price)
  }

  /** The price the last line for `id` in the file asks for, if any line
      names `id`. */
  function LastPrice(rows: seq<CsvRow>, id: string): (r: Option<string>)
    ensures r.None? <==> forall j :: 0 <= j < |rows| ==> rows[j].productId != id
    ensures r.Some? ==> exists j :: 0 <= j < |rows| && rows[j] == CsvRow(id, r.value)
                                    && forall j' :: j < j' < |rows| ==> rows[j'].productId != id
  {
    if |rows| == 0 then None
    else if rows[|rows| - 1].productId == id then Some(rows[|rows| - 1].newPrice)
    else LastPrice(rows[..|rows| - 1], id)
  }

  /** `for (const product of results) await Products.query().findById(product.product_id).patch(...)`:
      the lines are applied in file order, so the last line for an id wins.
      (Written as "patch the last line after all earlier ones".) */
  function PatchAll(t: Table, rows: seq<CsvRow>): (r: Table)
    ensures |r| == |t|
    ensures forall i :: 0 <= i < |t| ==>
              r[i].id == t[i].id && r[i].title == t[i].title && r[i].originalPrice == t[i].originalPrice
    ensures forall i :: 0 <= i < |t| ==>
              r[i].updatedPrice == (if LastPrice(rows, t[i].id).Some? then LastPrice(rows, t[i].id) else t[i].updatedPrice)
    ensures forall i :: 0 <= i < |t| && LastPrice(rows, t[i].id).None? ==> r[i] == t[i]
    ensures UniqueIds(t) ==> UniqueIds(r)
  {
    if |rows| == 0 then t
    else
      var row := rows[|rows| - 1];
      PatchById(PatchAll(t, rows[..|rows| - 1]), row.productId, row.newPrice)
  }

  /** `Products.query().whereNotNull('updated_price')`: the rows with a
      pending price, in table order. */
  function Pending(t: Table): (r: Table)
    ensures |r| <= |t|
    ensures forall v :: v in r <==> v in t && v.updatedPrice.Some?
    ensures forall v :: multiset(r)[v] == (if v.updatedPrice.Some? then multiset(t)[v] else 0)
  {
    if |t| == 0 then []
    else
      assert t == [t[0]] + t[1..];
      (if t[0].updatedPrice.Some? then [t[0]] else []) + Pending(t[1..])
  }

  /** The selection keeps table order: selecting from two consecutive parts
      of a table is selecting from each part in turn. */
  lemma {:induction false} PendingAppend(a: Table, b: Table)
    ensures Pending(a + b) == Pending(a) + Pending(b)
  {
    if |a| == 0 {
      assert a + b == b;
    } else {
      assert (a + b)[1..] == a[1..] + b;
      PendingAppend(a[1..], b);
    }
  }
}
