/** The cart serializers: one line of a cart (`ProductInShoppingCartSerializer`)
    and the whole cart of a user (`ShoppingCartSerializer`). */
module Serializers {
  import opened Wrappers
  import opened Models

  datatype HttpMethod = Get | Post | Put | Patch | Delete

  /** What field validation can reject. */
  datatype ValidationError = AmountRequired | AmountOutOfRange | AlreadyAdded

  /** One serialized line: the owner, the product (with its price in cents),
      the amount and `summ`. */
  datatype LineView = LineView(user: UserId, product: ProductId, price: int, amount: int, summ: int)

  /** The serialized cart of one user. `totalSumm` is None (JSON null) when the
      cart is empty, as SQL `SUM` over no rows is. */
  datatype CartView = CartView(listOfProducts: seq<LineView>, totalSumm: Option<int>, productsCount: nat)

  /** Every row references a product of the table (the foreign key). */
  predicate References(rows: seq<CartRow>, products: map<ProductId, Product>) {
    forall row :: row in rows ==> row.product in products
  }

  /** `get_summ`: the amount times the product's price. */
  function GetSumm(row: CartRow, product: Product): (r: int)
    ensures r == 0 <==> (row.amount == 0 || product.price == 0)
    ensures row.amount >= 0 && product.price >= 0 ==> r >= 0
    ensures row.amount >= 0 && product.price <= 0 ==> r <= 0
  {
    SignOfProduct(row.amount, product.price);
    row.amount * product.price
  }

  lemma {:induction false} MulPositive(a: int, b: int)
    requires a > 0 && b > 0
    ensures a * b > 0
    decreases a
  {
    if a > 1 {
      MulPositive(a - 1, b);
      assert a * b == (a - 1) * b + b;
    }
  }

  lemma SignOfProduct(a: int, b: int)
    ensures a * b == 0 <==> (a == 0 || b == 0)
    ensures a >= 0 && b >= 0 ==> a * b >= 0
    ensures a >= 0 && b <= 0 ==> a * b <= 0
  {
    if a > 0 && b > 0 {
      MulPositive(a, b);
    } else if a > 0 && b < 0 {
      MulPositive(a, -b);
      assert a * (-b) == -(a * b);
    } else if a < 0 && b > 0 {
      MulPositive(-a, b);
      assert (-a) * b == -(a * b);
    } else if a < 0 && b < 0 {
      MulPositive(-a, -b);
      assert (-a) * (-b) == a * b;
    }
  }

  /** The serialized form of one row. */
  function LineOf(row: CartRow, products: map<ProductId, Product>): LineView
    requires row.product in products
  {
    LineView(row.user, row.product, products[row.product].price, row.amount,
             GetSumm(row, products[row.product]))
  }

  /** `ProductInShoppingCartSerializer(rows, many=True).data`. */
  function Lines(rows: seq<CartRow>, products: map<ProductId, Product>): (r: seq<LineView>)
    requires References(rows, products)
    ensures |r| == |rows|
    ensures forall i :: 0 <= i < |rows| ==> r[i] == LineOf(rows[i], products)
    decreases |rows|
  {
    if rows == [] then []
    else
      assert forall row :: row in rows[1..] ==> row in rows;
      [LineOf(rows[0], products)] + Lines(rows[1..], products)
  }

  /** `get_list_of_products`: the lines of the rows whose user is `u`. */
  function ListOfProducts(rows: seq<CartRow>, products: map<ProductId, Product>, u: UserId): (r: seq<LineView>)
    requires References(rows, products)
    ensures |r| == |RowsOf(rows, u)|
    ensures forall i :: 0 <= i < |r| ==> r[i].user == u && r[i].summ == r[i].amount * r[i].price
  {
    var own := RowsOf(rows, u);
    var r := Lines(own, products);
    assert forall i :: 0 <= i < |own| ==> own[i] in own;
    r
  }

  /** The list holds a line for a row exactly when the row is `u`'s. */
  lemma ListOfProductsExactlyOwnRows(rows: seq<CartRow>, products: map<ProductId, Product>, u: UserId)
    requires References(rows, products)
    ensures forall row :: row in rows ==>
              (LineOf(row, products) in ListOfProducts(rows, products, u) <==> row.user == u)
  {
    var own := RowsOf(rows, u);
    var list := ListOfProducts(rows, products, u);
    forall row | row in rows
      ensures LineOf(row, products) in list <==> row.user == u
    {
      if row.user == u {
        assert row in own;
        var k :| 0 <= k < |own| && own[k] == row;
        assert list[k] == LineOf(row, products);
      }
      if LineOf(row, products) in list {
        var k :| 0 <= k < |list| && list[k] == LineOf(row, products);
        assert list[k].user == u;
      }
    }
  }

  /** The database aggregate `SUM(product.price * amount)` over `rows`. */
  function Aggregate(rows: seq<CartRow>, products: map<ProductId, Product>): int
    requires References(rows, products)
    decreases |rows|
  {
    if rows == [] then 0
    else
      assert forall row :: row in rows[1..] ==> row in rows;
      GetSumm(rows[0], products[rows[0].product]) + Aggregate(rows[1..], products)
  }

  /** The sum of the `summ` fields of serialized lines. */
  function SumOfSumms(lines: seq<LineView>): int
    decreases |lines|
  {
    if lines == [] then 0 else lines[0].summ + SumOfSumms(lines[1..])
  }

  /** `get_total_summ`: null for an empty cart, otherwise the aggregate over the
      rows of `u`. */
  function TotalSumm(rows: seq<CartRow>, products: map<ProductId, Product>, u: UserId): (r: Option<int>)
    requires References(rows, products)
    ensures r.None? <==> (forall row :: row in rows ==> row.user != u)
  {
    var own := RowsOf(rows, u);
    assert own != [] ==> own[0] in own;
    if own == [] then None else Some(Aggregate(own, products))
  }

  /** `get_products_count`: how many rows `u` has (not how many units). */
  function ProductsCount(rows: seq<CartRow>, u: UserId): (r: nat)
    ensures r <= |rows|
    ensures r == 0 <==> (forall row :: row in rows ==> row.user != u)
  {
    var own := RowsOf(rows, u);
    assert own != [] ==> own[0] in own;
    RowsOfPartition(rows, u);
    |own|
  }

  /** The whole serialized cart of `u`. */
  function CartViewOf(rows: seq<CartRow>, products: map<ProductId, Product>, u: UserId): CartView
    requires References(rows, products)
  {
    CartView(ListOfProducts(rows, products, u), TotalSumm(rows, products, u), ProductsCount(rows, u))
  }

  lemma {:induction false} AggregateIsSumOfLines(rows: seq<CartRow>, products: map<ProductId, Product>)
    requires References(rows, products)
    ensures Aggregate(rows, products) == SumOfSumms(Lines(rows, products))
    decreases |rows|
  {
    if rows != [] {
      assert forall row :: row in rows[1..] ==> row in rows;
      AggregateIsSumOfLines(rows[1..], products);
      assert Lines(rows, products)[1..] == Lines(rows[1..], products);
    }
  }

  /** The total is the sum of the `summ` values of the listed lines, null
      exactly when the list is empty; the count is the length of the list. */
  lemma CartViewConsistent(rows: seq<CartRow>, products: map<ProductId, Product>, u: UserId)
    requires References(rows, products)
    ensures var v := CartViewOf(rows, products, u);
            && v.totalSumm == (if v.listOfProducts == [] then None else Some(SumOfSumms(v.listOfProducts)))
            && v.productsCount == |v.listOfProducts|
  {
    AggregateIsSumOfLines(RowsOf(rows, u), products);
  }

  /** The count counts rows: changing the amount of a row leaves it as it was. */
  lemma ProductsCountIgnoresAmounts(rows: seq<CartRow>, i: nat, a: int, u: UserId)
    requires i < |rows|
    ensures ProductsCount(rows[i := rows[i].(amount := a)], u) == ProductsCount(rows, u)
  {
    RowsOfReplace(rows, i, rows[i].(amount := a), u);
  }

  /** The cart of `u` is unaffected by the rows of other users, wherever they
      stand in the table. */
  lemma {:induction false} CartViewIgnoresOtherUsers(front: seq<CartRow>, rows: seq<CartRow>, back: seq<CartRow>,
                                                     products: map<ProductId, Product>, u: UserId)
    requires References(front + rows + back, products)
    requires forall row :: row in front + back ==> row.user != u
    ensures References(rows, products)
    ensures CartViewOf(front + rows + back, products, u) == CartViewOf(rows, products, u)
  {
    assert forall row :: row in rows ==> row in front + rows + back;
    assert forall row :: row in front ==> row in front + back;
    assert forall row :: row in back ==> row in front + back;
    WhereNone(front, OwnedBy(u));
    WhereNone(back, OwnedBy(u));
    WhereAppend(front + rows, back, OwnedBy(u));
    WhereAppend(front, rows, OwnedBy(u));
    assert RowsOf(front + rows + back, u) == RowsOf(rows, u);
  }

  /** The cart of `u` depends on `u`'s rows alone: the same list, total and
      count come out when every other user's row, wherever it stands, is taken
      out of the table. */
  lemma CartViewOnlyOwnRows(rows: seq<CartRow>, products: map<ProductId, Product>, u: UserId)
    requires References(rows, products)
    ensures References(RowsOf(rows, u), products)
    ensures CartViewOf(rows, products, u) == CartViewOf(RowsOf(rows, u), products, u)
  {
    RowsOfIdempotent(rows, u);
  }

  /** `validate_product`: a POST for a product already in the requester's cart
      is refused; any other method passes. The lookup goes through the
      requester's own cart. */
  function ValidateProduct(httpMethod: HttpMethod, rows: seq<CartRow>, u: UserId, p: ProductId)
    : (r: Result<ProductId, ValidationError>)
    ensures r.Failure? <==> httpMethod == Post && HasPair(rows, u, p)
    ensures r.Success? ==> r.value == p
    ensures r.Failure? ==> r.error == AlreadyAdded
  {
    var own := RowsOf(rows, u);
    IsInShoppingCartIff(own, u);
    assert HasPair(own, u, p) <==> HasPair(rows, u, p);
    if httpMethod == Post && IsInShoppingCart(own, u, p) then Failure(AlreadyAdded) else Success(p)
  }

  /** Validation of the `amount` field: required unless the update is partial,
      and within the column's range when given. */
  function ValidateAmount(input: Option<int>, partial: bool): (r: Result<Option<int>, ValidationError>)
    ensures r.Success? <==> (input.None? && partial) || (input.Some? && ValidAmount(input.value))
    ensures r.Success? ==> r.value == input
    ensures r.Failure? && input.None? ==> r.error == AmountRequired
    ensures r.Failure? && input.Some? ==> r.error == AmountOutOfRange
  {
    match input
    case None => if partial then Success(None) else Failure(AmountRequired)
    case Some(a) => if ValidAmount(a) then Success(Some(a)) else Failure(AmountOutOfRange)
  }
}
