/**
 * The Product entity: what orders, carts, favourites and comments read
 * from the product table, its column defaults, and the two helpers that
 * keep the product/comment association consistent on both sides.
 */
module Catalog {
  import opened Wrappers

  /**
   * A product row. Money is in cents. `categoryId` and `sellerId` stand
   * for the associations; `comments` holds the ids of the product's
   * comments. The JSON columns images, params and specs hold string
   * arrays; they are kept here as the list the JSON text encodes.
   */
  datatype Product = Product(
    id: nat,
    name: string,
    categoryId: Option<nat>,
    sellerId: Option<nat>,
    description: Option<string>,
    price: int,
    originalPrice: Option<int>,
    stock: int,
    status: Option<int>,
    imageUrl: string,
    images: Option<seq<string>>,
    detail: Option<string>,
    params: Option<seq<string>>,
    specs: Option<seq<string>>,
    sales: Option<int>,
    comments: set<nat>,
    isFeatured: Option<bool>)

  type Products = map<nat, Product>

  /** The stock of every product is unchanged between two tables. */
  predicate SameStock(before: Products, after: Products) {
    before.Keys == after.Keys && forall id :: id in before ==> after[id].stock == before[id].stock
  }

  /**
   * `new Product()` with the mandatory columns filled in: the field
   * initialisers give status 1, sales 0, no comments and isFeatured false.
   */
  function NewProduct(id: nat, name: string, price: int, stock: int, imageUrl: string): (p: Product)
    ensures p.status == Some(1) && p.sales == Some(0) && p.comments == {} && p.isFeatured == Some(false)
    ensures p.id == id && p.name == name && p.price == price && p.stock == stock && p.imageUrl == imageUrl
  {
    Product(id, name, None, None, None, price, None, stock, Some(1), imageUrl,
            None, None, None, None, Some(0), {}, Some(false))
  }

  /**
   * The comment side of the association: comment id -> the product its
   * back-reference points at (None for null).
   */
  type CommentRefs = map<nat, Option<nat>>

  /** Both sides agree: a product lists a comment exactly when the comment points back. */
  predicate CommentsConsistent(products: Products, refs: CommentRefs) {
    (forall pid, c :: pid in products && c in products[pid].comments ==> c in refs && refs[c] == Some(pid))
    && (forall c :: c in refs && refs[c].Some? ==> refs[c].value in products && c in products[refs[c].value].comments)
  }

  /** Product.addComment: a null comment is ignored; otherwise both sides are linked. */
  function AddComment(products: Products, refs: CommentRefs, pid: nat, comment: Option<nat>): (r: (Products, CommentRefs))
    requires pid in products
    ensures comment.None? ==> r == (products, refs)
    ensures comment.Some? ==> pid in r.0 && comment.value in r.0[pid].comments && comment.value in r.1 && r.1[comment.value] == Some(pid)
    ensures r.0.Keys == products.Keys
    ensures forall q :: q in products && q != pid ==> r.0[q] == products[q]
    ensures forall c :: c in refs && Some(c) != comment ==> c in r.1 && r.1[c] == refs[c]
  {
    match comment
    case None => (products, refs)
    case Some(c) =>
      var p := products[pid];
      (products[pid := p.(comments := p.comments + {c})], refs[c := Some(pid)])
  }

  /** Product.removeComment: a null comment is ignored; otherwise both sides are unlinked. */
  function RemoveComment(products: Products, refs: CommentRefs, pid: nat, comment: Option<nat>): (r: (Products, CommentRefs))
    requires pid in products
    ensures comment.None? ==> r == (products, refs)
    ensures comment.Some? ==> pid in r.0 && comment.value !in r.0[pid].comments && comment.value in r.1 && r.1[comment.value] == None
    ensures r.0.Keys == products.Keys
    ensures forall q :: q in products && q != pid ==> r.0[q] == products[q]
  {
    match comment
    case None => (products, refs)
    case Some(c) =>
      var p := products[pid];
      (products[pid := p.(comments := p.comments - {c})], refs[c := None])
  }

  /**
   * Linking a comment that points nowhere keeps the two sides consistent,
   * and unlinking it again restores the product exactly.
   */
  lemma CommentLinkRoundTrip(products: Products, refs: CommentRefs, pid: nat, c: nat)
    requires pid in products && CommentsConsistent(products, refs)
    requires c !in refs || refs[c].None?
    ensures var (p1, r1) := AddComment(products, refs, pid, Some(c));
      CommentsConsistent(p1, r1)
      && RemoveComment(p1, r1, pid, Some(c)).0 == products
      && CommentsConsistent(RemoveComment(p1, r1, pid, Some(c)).0, RemoveComment(p1, r1, pid, Some(c)).1)
  {
    var (p1, r1) := AddComment(products, refs, pid, Some(c));
    assert c !in products[pid].comments;
    assert products[pid].(comments := products[pid].comments + {c}).(comments := products[pid].comments + {c} - {c})
      == products[pid];
    var (p2, r2) := RemoveComment(p1, r1, pid, Some(c));
    assert p2 == products;
    forall q, d | q in p1 && d in p1[q].comments
      ensures d in r1 && r1[d] == Some(q)
    {
      if q != pid || d != c {
        assert d in products[q].comments;
      }
    }
  }
}
