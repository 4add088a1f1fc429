/** The request handlers of the cart over the persisted tables: add, update
    and remove one product (the create/update/destroy mixin), clear and view
    the whole cart (the `shopping_cart` action of the product view set), and
    the cascading deletes of a product or a user. Every handler runs for one
    authenticated requester and is one atomic step. */
module CartApi {
  import opened Wrappers
  import opened Models
  import opened Permissions
  import opened Serializers

  datatype BadRequestReason = ObjectDoesNotExist | Invalid(error: ValidationError)

  /** What a handler answers. */
  datatype Outcome =
    | Created(line: LineView)
    | Updated(line: LineView)
    | Viewed(cart: CartView)
    | Deleted
    | Cleared
    | BadRequest(reason: BadRequestReason)
    | NotFound
    | AlreadyInCart

  /** The HTTP status of an outcome. A second row for a pair violates the
      unique constraint; the resulting IntegrityError is not an API exception,
      so the server answers 500. */
  function StatusCode(o: Outcome): int {
    match o
    case Created(_) => 201
    case Updated(_) => 200
    case Viewed(_) => 200
    case Deleted => 204
    case Cleared => 204
    case BadRequest(_) => 400
    case NotFound => 404
    case AlreadyInCart => 500
  }

  class ShoppingCartStore {
    var users: set<UserId>
    var products: map<ProductId, Product>
    var rows: seq<CartRow>

    ghost predicate Valid()
      reads this
    {
      TableInvariant(users, products, rows)
    }

    constructor (users0: set<UserId>, products0: map<ProductId, Product>)
      requires forall p :: p in products0 ==> ProductValid(products0[p])
      ensures Valid()
      ensures users == users0 && products == products0 && rows == []
    {
      users, products, rows := users0, products0, [];
    }

    /** `check_product_exist`: a 400 answer when the product is missing. */
    function CheckProductExist(id: ProductId): (r: Option<Outcome>)
      reads this
      ensures r.Some? <==> id !in products
    {
      if id in products then None else Some(BadRequest(ObjectDoesNotExist))
    }

    /** POST: add product `id` to the requester's cart. */
    method Create(requester: UserId, id: ProductId, amount: Option<int>) returns (r: Outcome)
      requires Valid() && requester in users
      modifies this`rows
      ensures Valid()
      ensures forall v :: v != requester ==> RowsOf(rows, v) == RowsOf(old(rows), v)
      ensures amount.None? ==> r == BadRequest(Invalid(AmountRequired)) && rows == old(rows)
      ensures amount.Some? && !ValidAmount(amount.value) ==>
                r == BadRequest(Invalid(AmountOutOfRange)) && rows == old(rows)
      ensures amount.Some? && ValidAmount(amount.value) && id !in products ==>
                r == NotFound && rows == old(rows)
      ensures amount.Some? && ValidAmount(amount.value) && id in products && HasPair(old(rows), requester, id) ==>
                r == AlreadyInCart && rows == old(rows)
      ensures amount.Some? && ValidAmount(amount.value) && id in products && !HasPair(old(rows), requester, id) ==>
                && rows == old(rows) + [CartRow(requester, id, amount.value)]
                && r == Created(LineOf(CartRow(requester, id, amount.value), products))
    {
      // The answer of the existence check is dropped; the handler goes on.
      var ignored := CheckProductExist(id);
      var validated := ValidateAmount(amount, false);
      if validated.Failure? {
        return BadRequest(Invalid(validated.error));
      }
      r := PerformCreate(requester, id, validated.value.value);
    }

    /** `perform_create`: `get_object_or_404` on the product, then the insert,
        which the unique constraint refuses for a pair already present. */
    method PerformCreate(requester: UserId, id: ProductId, a: int) returns (r: Outcome)
      requires Valid() && requester in users && ValidAmount(a)
      modifies this`rows
      ensures Valid()
      ensures forall v :: v != requester ==> RowsOf(rows, v) == RowsOf(old(rows), v)
      ensures id !in products ==> r == NotFound && rows == old(rows)
      ensures id in products && HasPair(old(rows), requester, id) ==> r == AlreadyInCart && rows == old(rows)
      ensures id in products && !HasPair(old(rows), requester, id) ==>
                rows == old(rows) + [CartRow(requester, id, a)] && r == Created(LineOf(CartRow(requester, id, a), products))
    {
      if id !in products {
        return NotFound;
      }
      if HasPair(rows, requester, id) {
        return AlreadyInCart;
      }
      var row := CartRow(requester, id, a);
      UniqueAppend(rows, row);
      forall v | v != requester ensures RowsOf(rows + [row], v) == RowsOf(rows, v) {
        RowsOfAppendOther(rows, row, v);
      }
      rows := rows + [row];
      r := Created(LineOf(row, products));
    }

    /** PUT (`partial` false) or PATCH (`partial` true): set the amount of the
        requester's row for product `id`. */
    method Update(requester: UserId, id: ProductId, amount: Option<int>, partial: bool) returns (r: Outcome)
      requires Valid()
      modifies this`rows
      ensures Valid()
      ensures forall v :: v != requester ==> RowsOf(rows, v) == RowsOf(old(rows), v)
      ensures RowsOf(old(rows), requester) == [] ==> r == BadRequest(ObjectDoesNotExist) && rows == old(rows)
      ensures RowsOf(old(rows), requester) != [] && !HasPair(old(rows), requester, id) ==>
                r == NotFound && rows == old(rows)
      ensures HasPair(old(rows), requester, id) ==>
                var i := FindRow(old(rows), requester, id).value;
                match ValidateAmount(amount, partial)
                case Failure(e) => r == BadRequest(Invalid(e)) && rows == old(rows)
                case Success(given) =>
                  var a := if given.Some? then given.value else old(rows)[i].amount;
                  && rows == old(rows)[i := old(rows)[i].(amount := a)]
                  && r == Updated(LineOf(rows[i], products))
    {
      if RowsOf(rows, requester) == [] {
        return BadRequest(ObjectDoesNotExist);
      }
      var found := FindRow(rows, requester, id);
      if found.None? {
        return NotFound;
      }
      var i := found.value;
      LookedUpRowIsPermitted(rows, requester, id);
      assert HasObjectPermission(rows[i], requester);
      var validated := ValidateAmount(amount, partial);
      if validated.Failure? {
        return BadRequest(Invalid(validated.error));
      }
      var a := if validated.value.Some? then validated.value.value else rows[i].amount;
      var row := rows[i].(amount := a);
      UniqueUpdate(rows, i, a);
      forall v | v != requester ensures RowsOf(rows[i := row], v) == RowsOf(rows, v) {
        RowsOfReplace(rows, i, row, v);
      }
      assert rows[i] in rows;
      rows := rows[i := row];
      assert rows[i] in rows;
      r := Updated(LineOf(rows[i], products));
    }

    /** DELETE on one product: remove the requester's row for product `id`. */
    method Destroy(requester: UserId, id: ProductId) returns (r: Outcome)
      requires Valid()
      modifies this`rows
      ensures Valid()
      ensures forall v :: v != requester ==> RowsOf(rows, v) == RowsOf(old(rows), v)
      ensures RowsOf(old(rows), requester) == [] ==> r == BadRequest(ObjectDoesNotExist) && rows == old(rows)
      ensures RowsOf(old(rows), requester) != [] && !HasPair(old(rows), requester, id) ==>
                r == NotFound && rows == old(rows)
      ensures HasPair(old(rows), requester, id) ==>
                var i := FindRow(old(rows), requester, id).value;
                && r == Deleted
                && rows == old(rows)[..i] + old(rows)[i + 1..]
                && (forall row :: row in rows <==>
                      row in old(rows) && (row.user != requester || row.product != id))
    {
      if RowsOf(rows, requester) == [] {
        return BadRequest(ObjectDoesNotExist);
      }
      var found := FindRow(rows, requester, id);
      if found.None? {
        return NotFound;
      }
      var i := found.value;
      LookedUpRowIsPermitted(rows, requester, id);
      assert HasObjectPermission(rows[i], requester);
      UniqueRemove(rows, i);
      RemoveAtExactlyThatPair(rows, i);
      forall v | v != requester ensures RowsOf(rows[..i] + rows[i + 1..], v) == RowsOf(rows, v) {
        RowsOfRemove(rows, i, v);
      }
      assert forall row :: row in rows[..i] + rows[i + 1..] ==> row in rows;
      rows := rows[..i] + rows[i + 1..];
      r := Deleted;
    }

    /** DELETE on the whole cart: remove every row of the requester. */
    method ClearShoppingCart(requester: UserId) returns (r: Outcome)
      requires Valid()
      modifies this`rows
      ensures Valid()
      ensures r == Cleared
      ensures rows == WithoutUser(old(rows), requester)
      ensures RowsOf(rows, requester) == []
      ensures forall v :: v != requester ==> RowsOf(rows, v) == RowsOf(old(rows), v)
    {
      DeleteUserKeepsInvariant(users, products, rows, requester);
      forall v ensures RowsOf(WithoutUser(rows, requester), v) == if requester == v then [] else RowsOf(rows, v) {
        RowsOfWithoutUser(rows, requester, v);
      }
      rows := WithoutUser(rows, requester);
      r := Cleared;
    }

    /** GET on the whole cart: the requester's lines, total and count. */
    method ViewShoppingCart(requester: UserId) returns (r: Outcome)
      requires Valid()
      ensures References(rows, products)
      ensures r == Viewed(CartViewOf(rows, products, requester))
    {
      r := Viewed(CartViewOf(rows, products, requester));
    }

    /** DELETE on a product: the product goes, and with it (`on_delete=CASCADE`)
        every cart row that references it, whoever owns it. */
    method DeleteProduct(id: ProductId) returns (r: Outcome)
      requires Valid()
      modifies this`products, this`rows
      ensures Valid()
      ensures users == old(users)
      ensures id !in old(products) ==> r == NotFound && products == old(products) && rows == old(rows)
      ensures id in old(products) ==>
                r == Deleted && products == old(products) - {id} && rows == WithoutProduct(old(rows), id)
    {
      if id !in products {
        return NotFound;
      }
      DeleteProductKeepsInvariant(users, products, rows, id);
      products := products - {id};
      rows := WithoutProduct(rows, id);
      r := Deleted;
    }

    /** Deleting a user takes (`on_delete=CASCADE`) exactly that user's rows. */
    method DeleteUser(u: UserId)
      requires Valid()
      modifies this`users, this`rows
      ensures Valid()
      ensures products == old(products)
      ensures users == old(users) - {u}
      ensures rows == WithoutUser(old(rows), u)
    {
      DeleteUserKeepsInvariant(users, products, rows, u);
      users := users - {u};
      rows := WithoutUser(rows, u);
    }
  }
}

/** A client of the store: one shopper adds bread (2.50) three times over and
    milk (1.20) twice over, removes the bread and clears the cart. The lines
    and totals follow from the handlers' contracts alone; an emptied cart
    reports a null total. */
module CartScenario {
  import opened Wrappers
  import opened BaseModels
  import opened Models
  import opened Serializers
  import opened CartApi

  method BreadAndMilk() {
    var alice, bob := 1, 2;
    var bread, milk := 10, 20;
    var catalog := map[bread := Product("bread", None, 250), milk := Product("milk", None, 120)];
    var store := new ShoppingCartStore({alice, bob}, catalog);

    var r := store.Create(alice, bread, Some(3));
    assert r == Created(LineView(alice, bread, 250, 3, 750)) && StatusCode(r) == 201;
    assert store.rows == [CartRow(alice, bread, 3)];
    r := store.Create(alice, bread, Some(3));
    assert HasPair(store.rows, alice, bread) by { assert store.rows[0] in store.rows; }
    assert r == AlreadyInCart;
    r := store.Create(alice, 30, Some(1));
    assert r == NotFound;
    assert !HasPair(store.rows, alice, milk);
    r := store.Create(alice, milk, Some(2));
    ViewTwoLines(store, alice, bread, milk);
  }

  method ViewTwoLines(store: ShoppingCartStore, alice: UserId, bread: ProductId, milk: ProductId)
    requires store.Valid() && bread != milk
    requires store.products == map[bread := Product("bread", None, 250), milk := Product("milk", None, 120)]
    requires store.rows == [CartRow(alice, bread, 3), CartRow(alice, milk, 2)]
    modifies store
  {
    var view := store.ViewShoppingCart(alice);
    WhereKeepsAll(store.rows, OwnedBy(alice));
    var rows := store.rows;
    assert rows[1..] == [CartRow(alice, milk, 2)] && rows[1..][1..] == [];
    assert Aggregate(rows[1..], store.products) == 240;
    assert GetSumm(rows[0], store.products[bread]) == 750;
    assert Aggregate(rows, store.products) == 990;
    assert view.cart.totalSumm == Some(990) && view.cart.productsCount == 2;
    RemoveBread(store, alice, bread, milk);
  }

  method RemoveBread(store: ShoppingCartStore, alice: UserId, bread: ProductId, milk: ProductId)
    requires store.Valid() && bread != milk
    requires store.products == map[bread := Product("bread", None, 250), milk := Product("milk", None, 120)]
    requires store.rows == [CartRow(alice, bread, 3), CartRow(alice, milk, 2)]
    modifies store
  {
    assert store.rows[0] in store.rows;
    var r := store.Destroy(alice, bread);
    assert r == Deleted;
    assert store.rows == [CartRow(alice, milk, 2)];
    var view := store.ViewShoppingCart(alice);
    WhereKeepsAll(store.rows, OwnedBy(alice));
    assert Aggregate(store.rows, store.products) == 240;
    assert view.cart.totalSumm == Some(240) && view.cart.productsCount == 1;
    ClearAll(store, alice, milk);
  }

  method ClearAll(store: ShoppingCartStore, alice: UserId, milk: ProductId)
    requires store.Valid()
    modifies store
  {
    var r := store.ClearShoppingCart(alice);
    var view := store.ViewShoppingCart(alice);
    assert view.cart.totalSumm == None && view.cart.productsCount == 0 && view.cart.listOfProducts == [];
    r := store.Destroy(alice, milk);
    assert r == BadRequest(ObjectDoesNotExist);
  }
}
