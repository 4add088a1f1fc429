/** The persisted tables of the cart subsystem: products and shopping-cart rows,
    the constraints the schema declares on them, and the queries over them. */
module Models {
  import opened Wrappers
  import opened BaseModels

  type UserId = int
  type ProductId = int

  /** Largest value of the `amount` column. The bound is the database
      backend's; this is Django's default range for `PositiveIntegerField`,
      0 .. 2^31 - 1, which PostgreSQL uses. */
  const MaxAmount: int := 2147483647

  /** `DecimalField(max_digits=10, decimal_places=2)`: a price in cents has at
      most ten digits, so its magnitude stays below 10^10. */
  const PriceLimitCents: int := 10000000000

  /** A product; the price is held in integer cents. */
  datatype Product = Product(name: string, slug: Option<string>, price: int)

  /** One shopping-cart row `(user, product, amount)`. */
  datatype CartRow = CartRow(user: UserId, product: ProductId, amount: int)

  // ---------------------------------------------------------------- columns

  /** The `amount` column admits the non-negative integers up to its range. */
  predicate ValidAmount(a: int) {
    0 <= a <= MaxAmount
  }

  predicate PriceFits(cents: int) {
    -PriceLimitCents < cents < PriceLimitCents
  }

  function Abs(x: int): nat { if x < 0 then -x else x }

  function Pow10(k: nat): (r: nat)
    ensures r >= 1
  {
    if k == 0 then 1 else 10 * Pow10(k - 1)
  }

  /** Number of decimal digits of `n` (one for zero). */
  function DigitCount(n: nat): (d: nat)
    ensures d >= 1
  {
    if n < 10 then 1 else 1 + DigitCount(n / 10)
  }

  lemma {:induction false} DigitCountBelow(n: nat, k: nat)
    requires k >= 1
    ensures DigitCount(n) <= k <==> n < Pow10(k)
    decreases n
  {
    if n >= 10 {
      if k == 1 {
        assert Pow10(1) == 10;
      } else {
        DigitCountBelow(n / 10, k - 1);
      }
    } else {
      PowAtLeastTen(k);
    }
  }

  lemma {:induction false} PowAtLeastTen(k: nat)
    requires k >= 1
    ensures Pow10(k) >= 10
  {
    if k > 1 {
      PowAtLeastTen(k - 1);
    }
  }

  /** A price fits its column exactly when its amount in cents, written with
      its two fractional digits, has at most ten digits. */
  lemma PriceFitsIffTenDigits(cents: int)
    ensures PriceFits(cents) <==> DigitCount(Abs(cents)) <= 10
  {
    DigitCountBelow(Abs(cents), 10);
    assert Pow10(10) == PriceLimitCents;
  }

  /** A product row as its field validators admit it. */
  predicate ProductValid(p: Product) {
    PriceFits(p.price) && SlugFieldValid(p.slug)
  }

  // ---------------------------------------------------------------- queries

  /** `filter(...)` over the cart table: the rows `keep` admits, in table order. */
  function Where(rows: seq<CartRow>, keep: CartRow -> bool): (r: seq<CartRow>)
    ensures forall row :: row in r <==> row in rows && keep(row)
    ensures |r| <= |rows|
    decreases |rows|
  {
    if rows == [] then []
    else
      assert rows == [rows[0]] + rows[1..];
      (if keep(rows[0]) then [rows[0]] else []) + Where(rows[1..], keep)
  }

  lemma {:induction false} WhereAppend(a: seq<CartRow>, b: seq<CartRow>, keep: CartRow -> bool)
    ensures Where(a + b, keep) == Where(a, keep) + Where(b, keep)
    decreases |a|
  {
    if a == [] {
      assert a + b == b;
    } else {
      assert (a + b)[0] == a[0];
      assert (a + b)[1..] == a[1..] + b;
      WhereAppend(a[1..], b, keep);
      var h := if keep(a[0]) then [a[0]] else [];
      assert Where(a + b, keep) == h + Where(a[1..] + b, keep);
      assert Where(a, keep) == h + Where(a[1..], keep);
    }
  }

  /** Filtering keeps every row when `keep` admits them all. */
  lemma {:induction false} WhereKeepsAll(rows: seq<CartRow>, keep: CartRow -> bool)
    requires forall row :: row in rows ==> keep(row)
    ensures Where(rows, keep) == rows
    decreases |rows|
  {
    if rows != [] {
      assert forall row :: row in rows[1..] ==> row in rows;
      WhereKeepsAll(rows[1..], keep);
    }
  }

  function OwnedBy(u: UserId): CartRow -> bool { (row: CartRow) => row.user == u }
  function NotOwnedBy(u: UserId): CartRow -> bool { (row: CartRow) => row.user != u }
  function NotOfProduct(p: ProductId): CartRow -> bool { (row: CartRow) => row.product != p }
  function OfPair(u: UserId, p: ProductId): CartRow -> bool { (row: CartRow) => row.user == u && row.product == p }

  /** `ShoppingCart.objects.filter(user=u)`: the cart of user `u`. */
  function RowsOf(rows: seq<CartRow>, u: UserId): (r: seq<CartRow>)
    ensures forall row :: row in r <==> row in rows && row.user == u
  {
    Where(rows, OwnedBy(u))
  }

  /** The table after deleting every row of user `u`. */
  function WithoutUser(rows: seq<CartRow>, u: UserId): (r: seq<CartRow>)
    ensures forall row :: row in r <==> row in rows && row.user != u
  {
    Where(rows, NotOwnedBy(u))
  }

  /** The table after deleting every row that references product `p`. */
  function WithoutProduct(rows: seq<CartRow>, p: ProductId): (r: seq<CartRow>)
    ensures forall row :: row in r <==> row in rows && row.product != p
  {
    Where(rows, NotOfProduct(p))
  }

  /** Deleting the rows of `u` leaves every other cart as it was and empties `u`'s. */
  lemma {:induction false} RowsOfWithoutUser(rows: seq<CartRow>, u: UserId, v: UserId)
    ensures RowsOf(WithoutUser(rows, u), v) == if u == v then [] else RowsOf(rows, v)
    decreases |rows|
  {
    if rows != [] {
      RowsOfWithoutUser(rows[1..], u, v);
      var h := if rows[0].user != u then [rows[0]] else [];
      assert WithoutUser(rows, u) == h + WithoutUser(rows[1..], u);
      WhereAppend(h, WithoutUser(rows[1..], u), OwnedBy(v));
    }
  }

  /** Deleting rows twice is deleting them once, and deleting the rows of a
      user who has none changes nothing. */
  lemma WithoutUserIdempotent(rows: seq<CartRow>, u: UserId)
    ensures WithoutUser(WithoutUser(rows, u), u) == WithoutUser(rows, u)
    ensures RowsOf(rows, u) == [] ==> WithoutUser(rows, u) == rows
  {
    WhereKeepsAll(WithoutUser(rows, u), NotOwnedBy(u));
    if RowsOf(rows, u) == [] {
      forall row | row in rows ensures NotOwnedBy(u)(row) {
        assert row.user == u ==> row in RowsOf(rows, u);
      }
      WhereKeepsAll(rows, NotOwnedBy(u));
    }
  }

  /** Filtering a cart by its owner again changes nothing. */
  lemma RowsOfIdempotent(rows: seq<CartRow>, u: UserId)
    ensures RowsOf(RowsOf(rows, u), u) == RowsOf(rows, u)
  {
    WhereKeepsAll(RowsOf(rows, u), OwnedBy(u));
  }

  /** Every row belongs either to `u`'s cart or to what deleting `u`'s rows leaves. */
  lemma {:induction false} RowsOfPartition(rows: seq<CartRow>, u: UserId)
    ensures |RowsOf(rows, u)| + |WithoutUser(rows, u)| == |rows|
    decreases |rows|
  {
    if rows != [] {
      RowsOfPartition(rows[1..], u);
    }
  }

  /** Appending a row leaves the carts of the other users as they were. */
  lemma RowsOfAppendOther(rows: seq<CartRow>, row: CartRow, v: UserId)
    requires row.user != v
    ensures RowsOf(rows + [row], v) == RowsOf(rows, v)
  {
    WhereAppend(rows, [row], OwnedBy(v));
    assert RowsOf([row], v) == [];
  }

  /** Replacing a row by one with the same owner keeps every cart's size and
      leaves the other users' carts as they were. */
  lemma RowsOfReplace(rows: seq<CartRow>, i: nat, x: CartRow, v: UserId)
    requires i < |rows| && x.user == rows[i].user
    ensures |RowsOf(rows[i := x], v)| == |RowsOf(rows, v)|
    ensures v != x.user ==> RowsOf(rows[i := x], v) == RowsOf(rows, v)
  {
    var pre, post := rows[..i], rows[i + 1..];
    assert rows == pre + [rows[i]] + post;
    assert rows[i := x] == pre + [x] + post;
    WhereAppend(pre + [rows[i]], post, OwnedBy(v));
    WhereAppend(pre, [rows[i]], OwnedBy(v));
    WhereAppend(pre + [x], post, OwnedBy(v));
    WhereAppend(pre, [x], OwnedBy(v));
  }

  /** Removing a row leaves the carts of the other users as they were. */
  lemma RowsOfRemove(rows: seq<CartRow>, i: nat, v: UserId)
    requires i < |rows| && rows[i].user != v
    ensures RowsOf(rows[..i] + rows[i + 1..], v) == RowsOf(rows, v)
  {
    var pre, mid, post := rows[..i], [rows[i]], rows[i + 1..];
    assert rows == (pre + mid) + post;
    WhereAppend(pre + mid, post, OwnedBy(v));
    WhereAppend(pre, mid, OwnedBy(v));
    WhereAppend(pre, post, OwnedBy(v));
    assert Where(mid, OwnedBy(v)) == [];
    assert Where(pre + mid, OwnedBy(v)) == Where(pre, OwnedBy(v));
  }

  // ---------------------------------------------------------------- uniqueness

  /** Some row of the table has user `u` and product `p`. */
  predicate HasPair(rows: seq<CartRow>, u: UserId, p: ProductId) {
    exists row :: row in rows && row.user == u && row.product == p
  }

  /** `UniqueConstraint(fields=['user', 'product'])`: no two rows share a pair. */
  predicate UniquePairs(rows: seq<CartRow>) {
    forall i, j :: 0 <= i < j < |rows| ==>
      rows[i].user != rows[j].user || rows[i].product != rows[j].product
  }

  lemma UniqueAppend(rows: seq<CartRow>, row: CartRow)
    requires UniquePairs(rows) && !HasPair(rows, row.user, row.product)
    ensures UniquePairs(rows + [row])
  {
    var t := rows + [row];
    forall i, j | 0 <= i < j < |t| ensures t[i].user != t[j].user || t[i].product != t[j].product {
      if j == |rows| {
        assert t[i] in rows;
      } else {
        assert t[i] == rows[i] && t[j] == rows[j];
      }
    }
  }

  lemma UniqueCons(row: CartRow, rows: seq<CartRow>)
    requires UniquePairs(rows) && !HasPair(rows, row.user, row.product)
    ensures UniquePairs([row] + rows)
  {
    var t := [row] + rows;
    forall i, j | 0 <= i < j < |t| ensures t[i].user != t[j].user || t[i].product != t[j].product {
      assert t[j] == rows[j - 1];
      if i > 0 {
        assert t[i] == rows[i - 1];
      } else {
        assert t[j] in rows;
      }
    }
  }

  lemma {:induction false} WherePreservesUnique(rows: seq<CartRow>, keep: CartRow -> bool)
    requires UniquePairs(rows)
    ensures UniquePairs(Where(rows, keep))
    decreases |rows|
  {
    if rows != [] {
      var tail := rows[1..];
      UniqueTail(rows);
      WherePreservesUnique(tail, keep);
      if keep(rows[0]) {
        var w := Where(tail, keep);
        forall row | row in w ensures row.user != rows[0].user || row.product != rows[0].product {
          var k :| 0 <= k < |tail| && tail[k] == row;
          assert rows[k + 1] == row;
        }
        UniqueCons(rows[0], w);
      }
    }
  }

  lemma UniqueUpdate(rows: seq<CartRow>, i: nat, a: int)
    requires UniquePairs(rows) && i < |rows|
    ensures UniquePairs(rows[i := rows[i].(amount := a)])
  {
  }

  lemma UniqueRemove(rows: seq<CartRow>, i: nat)
    requires UniquePairs(rows) && i < |rows|
    ensures UniquePairs(rows[..i] + rows[i + 1..])
  {
    var t := rows[..i] + rows[i + 1..];
    forall k | 0 <= k < |t| ensures t[k] == rows[if k < i then k else k + 1] {
    }
  }

  /** Removing the row at `i` removes exactly the rows with its pair: under
      uniqueness that is the one row, and no other row goes. */
  lemma RemoveAtExactlyThatPair(rows: seq<CartRow>, i: nat)
    requires UniquePairs(rows) && i < |rows|
    ensures forall row :: row in rows[..i] + rows[i + 1..] <==>
              row in rows && (row.user != rows[i].user || row.product != rows[i].product)
  {
    var t := rows[..i] + rows[i + 1..];
    forall row ensures row in t <==> row in rows && (row.user != rows[i].user || row.product != rows[i].product) {
      if row in t {
        var k :| 0 <= k < |t| && t[k] == row;
        var m := if k < i then k else k + 1;
        assert rows[m] == row;
      }
      if row in rows && (row.user != rows[i].user || row.product != rows[i].product) {
        var m :| 0 <= m < |rows| && rows[m] == row;
        assert m != i;
        if m < i {
          assert t[m] == row;
        } else {
          assert t[m - 1] == row;
        }
      }
    }
  }

  lemma UniqueTail(rows: seq<CartRow>)
    requires UniquePairs(rows) && rows != []
    ensures UniquePairs(rows[1..])
  {
    var tail := rows[1..];
    forall i, j | 0 <= i < j < |tail| ensures tail[i].user != tail[j].user || tail[i].product != tail[j].product {
      assert tail[i] == rows[i + 1] && tail[j] == rows[j + 1];
    }
  }

  lemma {:induction false} WhereNone(rows: seq<CartRow>, keep: CartRow -> bool)
    requires forall row :: row in rows ==> !keep(row)
    ensures Where(rows, keep) == []
    decreases |rows|
  {
    if rows != [] {
      assert forall row :: row in rows[1..] ==> row in rows;
      WhereNone(rows[1..], keep);
    }
  }

  /** The uniqueness constraint means: within a pair, at most one row. */
  lemma {:induction false} UniquePairsAtMostOne(rows: seq<CartRow>, u: UserId, p: ProductId)
    requires UniquePairs(rows)
    ensures |Where(rows, OfPair(u, p))| <= 1
    decreases |rows|
  {
    if rows != [] {
      UniqueTail(rows);
      if OfPair(u, p)(rows[0]) {
        forall row | row in rows[1..] ensures !OfPair(u, p)(row) {
          var k :| 0 <= k < |rows[1..]| && rows[1..][k] == row;
          assert rows[k + 1] == row;
        }
        WhereNone(rows[1..], OfPair(u, p));
      } else {
        UniquePairsAtMostOne(rows[1..], u, p);
      }
    }
  }

  /** The position of the row `(u, p)`: the lookup of `get_object` on the
      requester's queryset by `product__id`. */
  function FindRow(rows: seq<CartRow>, u: UserId, p: ProductId): (r: Option<nat>)
    ensures r.Some? ==> r.value < |rows| && rows[r.value].user == u && rows[r.value].product == p
    ensures r.None? <==> !HasPair(rows, u, p)
    decreases |rows|
  {
    if rows == [] then None
    else if rows[0].user == u && rows[0].product == p then Some(0)
    else
      assert forall row :: row in rows ==> row == rows[0] || row in rows[1..];
      match FindRow(rows[1..], u, p)
      case None => None
      case Some(k) => Some(k + 1)
  }

  /** The lookup sees only the requester's rows: it finds the same row when
      every other user's rows are taken away. */
  lemma {:induction false} FindRowOnlyOwnRows(rows: seq<CartRow>, u: UserId, p: ProductId)
    ensures FindRow(rows, u, p).Some? <==> FindRow(RowsOf(rows, u), u, p).Some?
    ensures FindRow(rows, u, p).Some? ==>
              rows[FindRow(rows, u, p).value] == RowsOf(rows, u)[FindRow(RowsOf(rows, u), u, p).value]
    decreases |rows|
  {
    if rows != [] {
      FindRowOnlyOwnRows(rows[1..], u, p);
      var own := RowsOf(rows, u);
      var ownTail := RowsOf(rows[1..], u);
      if rows[0].user == u {
        assert own == [rows[0]] + ownTail;
        assert own[1..] == ownTail;
      } else {
        assert own == ownTail;
      }
    }
  }

  // ---------------------------------------------------------------- annotation

  /** `Exists(ShoppingCart.objects.filter(user_id=u, product__pk=p))`. */
  predicate IsInShoppingCart(rows: seq<CartRow>, u: UserId, p: ProductId) {
    Where(rows, OfPair(u, p)) != []
  }

  lemma IsInShoppingCartIff(rows: seq<CartRow>, u: UserId)
    ensures forall p :: IsInShoppingCart(rows, u, p) <==> HasPair(rows, u, p)
  {
    forall p ensures IsInShoppingCart(rows, u, p) <==> HasPair(rows, u, p) {
      var w := Where(rows, OfPair(u, p));
      if w != [] {
        assert w[0] in w;
      }
      if HasPair(rows, u, p) {
        var row :| row in rows && row.user == u && row.product == p;
        assert row in w;
      }
    }
  }

  /** `Product.objects.add_user_annotations(user.pk)`: each product with its
      `is_in_shopping_cart` flag for the requester. An anonymous requester
      (`pk` is None, and `user_id IS NULL` matches no row) sees every flag false. */
  function AddUserAnnotations(products: map<ProductId, Product>, rows: seq<CartRow>, requester: Option<UserId>)
    : (r: map<ProductId, bool>)
    ensures r.Keys == products.Keys
    ensures forall p :: p in r ==> (r[p] <==> requester.Some? && HasPair(rows, requester.value, p))
  {
    IsInShoppingCartIff(rows, if requester.Some? then requester.value else 0);
    map p | p in products :: requester.Some? && IsInShoppingCart(rows, requester.value, p)
  }

  // ---------------------------------------------------------------- the tables

  /** What the database guarantees of the tables: the unique pair, the column
      range of `amount`, the foreign keys of each row, and valid products. */
  predicate TableInvariant(users: set<UserId>, products: map<ProductId, Product>, rows: seq<CartRow>) {
    && UniquePairs(rows)
    && (forall row :: row in rows ==> row.user in users && row.product in products && ValidAmount(row.amount))
    && (forall p :: p in products ==> ProductValid(products[p]))
  }

  /** Deleting a user keeps the invariant (`on_delete=CASCADE` on `user`). */
  lemma DeleteUserKeepsInvariant(users: set<UserId>, products: map<ProductId, Product>, rows: seq<CartRow>, u: UserId)
    requires TableInvariant(users, products, rows)
    ensures TableInvariant(users - {u}, products, WithoutUser(rows, u))
  {
    WherePreservesUnique(rows, NotOwnedBy(u));
  }

  /** Deleting a product keeps the invariant (`on_delete=CASCADE` on `product`). */
  lemma DeleteProductKeepsInvariant(users: set<UserId>, products: map<ProductId, Product>, rows: seq<CartRow>, p: ProductId)
    requires TableInvariant(users, products, rows)
    ensures TableInvariant(users, products - {p}, WithoutProduct(rows, p))
  {
    WherePreservesUnique(rows, NotOfProduct(p));
  }
}
