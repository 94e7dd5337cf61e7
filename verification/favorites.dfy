/**
 * Favourites: FavoriteServiceImpl over the favorites table, whose
 * (user_id, product_id) unique constraint makes it a set of pairs.
 */
module Favorites {
  import opened Wrappers
  import opened ResultCodes

  /** Existing user ids, existing product ids, and the stored (user, product) pairs. */
  datatype FavoriteState = FavoriteState(users: set<nat>, products: set<nat>, pairs: set<(nat, nat)>)

  /** Every pair references an existing user and product (the two NOT NULL foreign keys). */
  predicate Valid(st: FavoriteState) {
    forall p :: p in st.pairs ==> p.0 in st.users && p.1 in st.products
  }

  /** addFavorite: both ends must exist; an existing pair is left as it is. */
  function AddFavorite(st: FavoriteState, userId: nat, productId: nat): (r: Result<FavoriteState, Failure>)
    ensures r.Err? <==> userId !in st.users || productId !in st.products
    ensures r.Err? ==> r.error == EntityNotFound
    ensures r.Ok? ==> r.value.pairs == st.pairs + {(userId, productId)}
    ensures r.Ok? ==> r.value.users == st.users && r.value.products == st.products
  {
    if userId !in st.users || productId !in st.products then Err(EntityNotFound)
    else if (userId, productId) in st.pairs then Ok(st)
    else Ok(st.(pairs := st.pairs + {(userId, productId)}))
  }

  /** removeFavorite: both ends must exist; the pair is deleted whether or not it was stored. */
  function RemoveFavorite(st: FavoriteState, userId: nat, productId: nat): (r: Result<FavoriteState, Failure>)
    ensures r.Err? <==> userId !in st.users || productId !in st.products
    ensures r.Err? ==> r.error == EntityNotFound
    ensures r.Ok? ==> r.value.pairs == st.pairs - {(userId, productId)}
    ensures r.Ok? ==> r.value.users == st.users && r.value.products == st.products
  {
    if userId !in st.users then Err(EntityNotFound)
    else if productId !in st.products then Err(EntityNotFound)
    else Ok(st.(pairs := st.pairs - {(userId, productId)}))
  }

  /** isFavorite: false, not an error, when the user or the product is missing. */
  function IsFavorite(st: FavoriteState, userId: nat, productId: nat): (b: bool)
    ensures b ==> userId in st.users && productId in st.products
    ensures Valid(st) ==> (b <==> (userId, productId) in st.pairs)
  {
    userId in st.users && productId in st.products && (userId, productId) in st.pairs
  }

  /** getProductFavoriteCount: the number of users who stored the product. */
  function GetProductFavoriteCount(st: FavoriteState, productId: nat): (r: Result<nat, Failure>)
    ensures r.Err? <==> productId !in st.products
    ensures r.Ok? ==> r.value == |set p | p in st.pairs && p.1 == productId|
  {
    if productId !in st.products then Err(EntityNotFound)
    else Ok(|set p | p in st.pairs && p.1 == productId|)
  }

  /** getUserFavorites without the paging: the user must exist; the ids of their favourite products. */
  function GetUserFavorites(st: FavoriteState, userId: nat): (r: Result<set<nat>, Failure>)
    ensures r.Err? <==> userId !in st.users
    ensures r.Ok? ==> forall pid :: pid in r.value <==> (userId, pid) in st.pairs
  {
    if userId !in st.users then Err(EntityNotFound)
    else Ok(set p | p in st.pairs && p.0 == userId :: p.1)
  }

  /** Adding twice is adding once; after an add the pair is a favourite; removal makes it not one. */
  lemma FavoriteSetLaws(st: FavoriteState, userId: nat, productId: nat)
    requires Valid(st)
    ensures var r := AddFavorite(st, userId, productId);
      r.Ok? ==> Valid(r.value) && AddFavorite(r.value, userId, productId) == r && IsFavorite(r.value, userId, productId)
    ensures var r := RemoveFavorite(st, userId, productId);
      r.Ok? ==> Valid(r.value) && !IsFavorite(r.value, userId, productId)
  {
  }

  /** Removing a favourite that was just added restores the table. */
  lemma AddThenRemoveFavorite(st: FavoriteState, userId: nat, productId: nat)
    requires (userId, productId) !in st.pairs
    requires AddFavorite(st, userId, productId).Ok?
    ensures RemoveFavorite(AddFavorite(st, userId, productId).value, userId, productId) == Ok(st)
  {
    assert st.pairs + {(userId, productId)} - {(userId, productId)} == st.pairs;
  }

  /** A new favourite raises the product's count by exactly one; a repeated one leaves it. */
  lemma AddFavoriteCounts(st: FavoriteState, userId: nat, productId: nat)
    requires AddFavorite(st, userId, productId).Ok?
    ensures var st2 := AddFavorite(st, userId, productId).value;
      GetProductFavoriteCount(st2, productId).value
        == GetProductFavoriteCount(st, productId).value + (if (userId, productId) in st.pairs then 0 else 1)
  {
    var st2 := AddFavorite(st, userId, productId).value;
    var before := set p | p in st.pairs && p.1 == productId;
    var after := set p | p in st2.pairs && p.1 == productId;
    if (userId, productId) !in st.pairs {
      assert after == before + {(userId, productId)};
    } else {
      assert after == before;
    }
  }
}
