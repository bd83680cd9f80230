/** The remote commerce platform as the service sees it: the answer of one
    `productVariants` GraphQL page query, the mapping of that answer to plain
    product records (`fetchProductVariants`, src/index.js:116-156), and the
    translation of a stored variant id into the key the REST price update
    expects (src/index.js:101). The network itself is not modelled: a call's
    answer is a parameter. */
module Shopify {
  import opened Wrappers
  import opened JsString

  /** A pagination cursor; `None` is the `null` cursor of the first call. */
  type Cursor = Option<string>

  /** `edge.node`: the three fields the query asks for. Prices are opaque
      strings, passed through unchanged. */
  datatype Node = Node(id: string, title: string, price: string)

  /** `productVariants.pageInfo`. */
  datatype PageInfo = PageInfo(hasNextPage: bool, endCursor: Cursor)

  /** `response.productVariants`: one page of at most 50 edges. */
  datatype Connection = Connection(edges: seq<Node>, pageInfo: PageInfo)

  /** What one `shopify.graphql` call yields: the page, or the error it throws
      (transport failure, authentication failure or a malformed answer). */
  type Reply = Result<Connection, string>

  /** The record built from one edge. */
  datatype Product = Product(id: string, title: string, originalPrice: string)

  /** The value `fetchProductVariants` resolves to. */
  datatype Page = Page(products: seq<Product>, hasNextPage: bool, endCursor: Cursor)

  /** `edges.map(edge => ({ id, title, original_price: price }))`. */
  function ProductsOf(edges: seq<Node>): (r: seq<Product>)
    ensures |r| == |edges|
    ensures forall i :: 0 <= i < |edges| ==>
              && r[i].id == edges[i].id
              && r[i].title == edges[i].title
              && r[i].originalPrice == edges[i].price
  {
    if |edges| == 0 then []
    else [Product(edges[0].id, edges[0].title, edges[0].price)] + ProductsOf(edges[1..])
  }

  /** The edge a product record was built from. */
  function NodeOf(p: Product): Node {
    Node(p.id, p.title, p.originalPrice)
  }

  /** The edge mapping loses nothing: every edge can be recovered, in order,
      from the records it produced. */
  lemma ProductsOfLossless(edges: seq<Node>)
    ensures seq(|edges|, i requires 0 <= i < |edges| => NodeOf(ProductsOf(edges)[i])) == edges
  {
  }

  /** `fetchProductVariants(cursor)` given the answer of its one GraphQL call:
      an error is rethrown unchanged; otherwise the edges are mapped and the
      page information is passed on as is. */
  function FetchProductVariants(reply: Reply): (r: Result<Page, string>)
    ensures r.Failure? <==> reply.Failure?
    ensures r.Failure? ==> r.error == reply.error
    ensures r.Success? ==>
              && r.value.products == ProductsOf(reply.value.edges)
              && |r.value.products| == |reply.value.edges|
              && r.value.hasNextPage == reply.value.pageInfo.hasNextPage
              && r.value.endCursor == reply.value.pageInfo.endCursor
  {
    match reply
    case Failure(e) => Failure(e)
    case Success(c) => Success(Page(ProductsOf(c.edges), c.pageInfo.hasNextPage, c.pageInfo.endCursor))
  }

  /** The namespace of a variant's global id. */
  const VariantGidPrefix := "gid://shopify/ProductVariant/"

  /** `product.id.replace('gid://shopify/ProductVariant/', '')`: the key the
      price update is addressed to. Only the first occurrence of the prefix
      is removed, wherever it stands; an id without it is used unchanged, and
      a global variant id gives its bare key back. */
  function VariantKey(id: string): (key: string)
    ensures !Contains(id, VariantGidPrefix) ==> key == id
    ensures Contains(id, VariantGidPrefix) ==>
              exists i: nat ::
                && OccursAt(id, VariantGidPrefix, i)
                && (forall j: nat :: j < i ==> !OccursAt(id, VariantGidPrefix, j))
                && key == id[..i] + id[i + |VariantGidPrefix|..]
    ensures StartsWith(id, VariantGidPrefix) ==> VariantGidPrefix + key == id
  {
    var key := ReplaceFirst(id, VariantGidPrefix, "");
    assert StartsWith(id, VariantGidPrefix) ==> id == VariantGidPrefix + id[|VariantGidPrefix|..];
    key
  }

  /** A global variant id yields its bare key. */
  lemma VariantKeyOfGid(key: string)
    ensures VariantKey(VariantGidPrefix + key) == key
  {
    assert StartsWith(VariantGidPrefix + key, VariantGidPrefix);
    assert (VariantGidPrefix + key)[|VariantGidPrefix|..] == key;
  }

  /** The worked example: the key of variant 12345. */
  lemma VariantKeyExample()
    ensures VariantKey("gid://shopify/ProductVariant/12345") == "12345"
  {
    VariantKeyOfGid("12345");
  }

  /** The translation is not one-to-one: a bare key and its global id are sent
      to the same remote variant, and a doubled prefix keeps one copy. */
  lemma VariantKeyNotInjective()
    ensures VariantKey("12345") == VariantKey("gid://shopify/ProductVariant/12345") == "12345"
    ensures VariantKey(VariantGidPrefix + VariantGidPrefix + "1") == VariantGidPrefix + "1"
  {
    VariantKeyOfGid("12345");
    assert IndexOf("12345", VariantGidPrefix, 0) == None;
    VariantKeyOfGid(VariantGidPrefix + "1");
    assert VariantGidPrefix + VariantGidPrefix + "1" == VariantGidPrefix + (VariantGidPrefix + "1");
  }

  /** One `shopify.productVariant.update(key, { price })` call. */
  datatype PriceUpdate = PriceUpdate(key: string, price: string)

  /** The answer to one price update: it went through, or the call threw. */
  datatype UpdateReply = Updated | Rejected(reason: string)
}
