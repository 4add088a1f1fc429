# Shopping cart of the grocery store, modelled in Dafny

The grocery store is a Django REST backend: a catalog of categories,
subcategories and products, and a shopping cart for each user. This project
models the cart subsystem as an in-memory store of two tables. The first is
the product table, with a price in integer cents and an optional slug. The
second is the cart table, with rows `(user, product, amount)`. The project
also models the request handlers that change and read the cart:

- add a product (POST), change its amount (PUT/PATCH) and remove it (DELETE);
- clear the whole cart (DELETE) and view it (GET);
- delete a product or a user, which cascades to the cart rows.

The model also covers the pure pieces the cart relies on: the slug validator,
`__str__` truncation, the `is_in_shopping_cart` annotation of the product
listing and the `IsOwner` permission.

Files and modules:

- `wrappers.dfy` (`Wrappers`): `Option` and `Result`.
- `basemodels.dfy` (`BaseModels`): the slug regular expression with Python's
  `re.search` semantics, the `SlugField` check, `__str__` as a Python slice,
  and the name ordering that the base model declares.
- `models.dfy` (`Models`): the schema. It has the column constraints, the row
  filters (`filter(user=...)` and the cascade deletes), the unique
  `(user, product)` constraint, the `get_object` lookup and the
  `add_user_annotations` subquery.
- `permissions.dfy` (`Permissions`): `IsOwner.has_object_permission`.
- `serializers.dfy` (`Serializers`): `summ`, `list_of_products`, `total_summ`,
  `products_count`, `validate_product` and the validation of the `amount` field.
- `cart_api.dfy` (`CartApi`): the class `ShoppingCartStore`. It holds the
  tables as fields, and its methods are the handlers. Each method that
  changes the tables has a `modifies` clause and states the whole new state. `Valid()` is the database
  invariant and every method preserves it: unique pairs, amount range,
  foreign keys and valid products. `CartScenario` is a client that adds bread
  and milk, views, removes and clears through the contracts alone.

Values and conventions:

- Prices are integer cents. `DecimalField(max_digits=10, decimal_places=2)`
  becomes |cents| < 10^10.
- `amount` is a `PositiveIntegerField`. The model admits 0 to 2147483647 in it:
  that is Django's default range for the field, the one PostgreSQL uses.
  Other backends have other upper bounds.
- Users and products are integer ids.
- The table is a sequence in database order. An ORM `filter` keeps that order.
- The requester is an explicit parameter of every handler.
- Any requester may delete a product. The product view set allows `delete`
  with `AllowAny`. The row cascade follows from the foreign keys.

## Behaviour worth knowing

- The code admits a stored amount of 0: a `PositiveIntegerField` starts at 0.
- A POST for a missing product answers 404, from `get_object_or_404` in
  `perform_create`. `check_product_exist` builds a 400 answer, but `create`
  throws it away.
  The amount is validated before the lookup, so a bad amount answers 400
  even when the product does not exist.
- A duplicate POST is refused, and nothing changes. `product` is a read-only
  field, so `validate_product` never runs. The unique constraint raises an
  `IntegrityError` instead, and that becomes a server error (500).
- Update and destroy answer 400 only when the requester's whole cart is
  empty. A non-empty cart without that product answers 404, from `get_object`.
- `total_summ` of an empty cart is null (SQL `SUM` over no rows), not 0.
- `products_count` counts rows, not units.
- A PATCH without an amount succeeds and leaves the row as it was. A PUT
  without an amount answers 400.

## Model

| member | source | states |
|---|---|---|
| `BaseModels.SlugRegexMatchesIff` | grocery_store/products/basemodels.py:17-19 | `^[-a-zA-Z0-9_]+$` under `re.search` accepts exactly the non-empty strings of ASCII letters, digits, `-` and `_`, with or without one trailing newline |
| `BaseModels.SlugRegexAdmitsTrailingNewline` | grocery_store/products/basemodels.py:18 | the RegexValidator alone accepts `"a\n"`, which is not a proper slug |
| `BaseModels.SlugFieldValidIff` | grocery_store/products/basemodels.py:13-20 | a null slug is admitted; a present slug is admitted iff it is non-empty and uses only ASCII letters, digits, `-`, `_` |
| `BaseModels.Str` | grocery_store/products/basemodels.py:31-32 | `__str__` is a prefix of the name, of length `min(len(name), SYMBOLS_QUANTITY)` for a non-negative setting (Python's rule for a negative one) |
| `BaseModels.StrShortAndIdempotent` | grocery_store/products/basemodels.py:31-32 | a name within the bound is shown whole and only then; truncating twice is truncating once |
| `BaseModels.ListingAsWritten` | grocery_store/products/models.py:15-17 | a category listing is the table's rows, a permutation of the table with no ORDER BY |
| `BaseModels.ListingAsWrittenUnordered` | grocery_store/products/basemodels.py:27-29 | a listing as written can come back out of name order |
| `BaseModels.OrderedByName` | grocery_store/products/basemodels.py:29 | the declared ordering: sorted by name ascending and a permutation of the table |
| `Models.PriceFitsIffTenDigits` | grocery_store/products/models.py:74-78 | a price fits `max_digits=10, decimal_places=2` iff its amount in cents has at most ten digits |
| `Models.RowsOf` | grocery_store/api/views.py:148-149 | the cart queryset holds exactly the rows whose user is the requester |
| `Models.WithoutUser` | grocery_store/api/views.py:129 | deleting a user's rows leaves exactly the rows of the other users |
| `Models.WithoutProduct` | grocery_store/products/models.py:134-139 | deleting a product leaves exactly the rows that reference other products, for every user |
| `Models.RowsOfWithoutUser` | grocery_store/api/views.py:129 | after clearing user `u`, `u`'s cart is empty and every other user's cart is unchanged |
| `Models.WithoutUserIdempotent` | grocery_store/api/views.py:128-133 | clearing twice equals clearing once; clearing an empty cart changes nothing |
| `Models.RowsOfPartition` | grocery_store/products/models.py:128-133 | a user's rows and the rows a user deletion leaves add up to the whole table |
| `Models.UniquePairsAtMostOne` | grocery_store/products/models.py:147-152 | under the unique constraint a `(user, product)` pair has at most one row |
| `Models.WherePreservesUnique` | grocery_store/products/models.py:147-152 | deleting rows by any filter keeps the pairs unique |
| `Models.RemoveAtExactlyThatPair` | grocery_store/api/mixins.py:76-77 | removing the looked-up row removes exactly the rows of its pair and no other row |
| `Models.FindRow` | grocery_store/api/mixins.py:20-21 | the lookup by `product__id` on the requester's queryset finds a row of that user and product, and finds none iff no such row exists |
| `Models.FindRowOnlyOwnRows` | grocery_store/api/views.py:148-149 | the lookup finds the same row when every other user's rows are removed: it reads only the requester's rows |
| `Models.IsInShoppingCartIff` | grocery_store/products/models.py:43-50 | the `Exists` subquery is true iff a row with that user and that product exists |
| `Models.AddUserAnnotations` | grocery_store/api/views.py:118 | every product is annotated, and its flag is true iff the (authenticated) requester has a row for it; an anonymous requester sees only false |
| `Models.DeleteUserKeepsInvariant` | grocery_store/products/models.py:128-133 | the user cascade keeps uniqueness, foreign keys and amount range |
| `Models.DeleteProductKeepsInvariant` | grocery_store/products/models.py:134-139 | the product cascade keeps uniqueness, foreign keys and amount range |
| `Permissions.PermissionOnlyByOwner` | grocery_store/api/permissions.py:7-8 | permission holds iff the row's user is the requester; product and amount do not matter; another user's row is refused |
| `Permissions.LookedUpRowIsPermitted` | grocery_store/api/permissions.py:8 | every row the handlers look up passes `IsOwner`, so the object check never refuses there |
| `Serializers.GetSumm` | grocery_store/api/serializers.py:243-245 | `summ` is zero iff the amount or the price is zero, and has the sign of the price for a non-negative amount |
| `Serializers.Lines` | grocery_store/api/serializers.py:271-274 | one serialized line per row, in order, each the line of that row |
| `Serializers.ListOfProducts` | grocery_store/api/serializers.py:270-274 | one line per row of the user; every line belongs to the user and has `summ = amount × price` |
| `Serializers.ListOfProductsExactlyOwnRows` | grocery_store/api/serializers.py:272 | a row's line is in the list iff the row's user is the given user |
| `Serializers.TotalSumm` | grocery_store/api/serializers.py:262-265 | the total is null iff the user has no rows |
| `Serializers.ProductsCount` | grocery_store/api/serializers.py:267-268 | the count is at most the table size and zero iff the user has no rows |
| `Serializers.AggregateIsSumOfLines` | grocery_store/api/serializers.py:263-265 | the database aggregate of `price × amount` equals the sum of the lines' `summ` |
| `Serializers.CartViewConsistent` | grocery_store/api/serializers.py:262-274 | `total_summ` is the sum of the listed `summ` values (null iff the list is empty), and `products_count` is the length of the list |
| `Serializers.ProductsCountIgnoresAmounts` | grocery_store/api/serializers.py:267-268 | changing a row's amount does not change any user's count: it counts rows, not units |
| `Serializers.CartViewIgnoresOtherUsers` | grocery_store/api/serializers.py:262-274 | a user's list, total and count are the same whatever rows of other users stand before or after theirs |
| `Serializers.CartViewOnlyOwnRows` | grocery_store/api/serializers.py:262-274 | a user's list, total and count are the same as those of the table reduced to that user's rows, so other users' rows anywhere in the table do not affect them |
| `Serializers.ValidateProduct` | grocery_store/api/serializers.py:234-241 | refused iff the method is POST and the requester already has the product; otherwise the product is returned |
| `Serializers.ValidateAmount` | grocery_store/products/models.py:140-142 | an amount is accepted iff it is in 0..2147483647; a missing amount only in a partial update |
| `CartApi.ShoppingCartStore.CheckProductExist` | grocery_store/api/mixins.py:23-30 | yields an answer iff the product does not exist |
| `CartApi.ShoppingCartStore.Create` | grocery_store/api/mixins.py:32-39 | a missing or out-of-range amount gives 400; then a missing product gives 404 (the existence check's answer is ignored); then a duplicate pair is refused; each of these leaves the table unchanged. Otherwise exactly one row `(requester, id, amount)` is appended and 201 is returned. Other users' carts are unchanged, and the invariant is kept |
| `CartApi.ShoppingCartStore.PerformCreate` | grocery_store/api/mixins.py:41-46 | `get_object_or_404` then the insert: 404 or a duplicate refusal leave the table unchanged; otherwise the requester's row is appended |
| `CartApi.ShoppingCartStore.Update` | grocery_store/api/mixins.py:55-68 | an empty cart gives 400; a missing row in a non-empty cart gives 404; an invalid amount gives 400; each leaves the table unchanged. Otherwise only the amount of the requester's row for that product changes and 200 is returned. Other users' carts are unchanged |
| `CartApi.ShoppingCartStore.Destroy` | grocery_store/api/mixins.py:70-81 | an empty cart gives 400 and a missing row gives 404, each with the table unchanged; otherwise exactly the requester's row for that product is removed, no other row, and 204 is returned |
| `CartApi.ShoppingCartStore.ClearShoppingCart` | grocery_store/api/views.py:128-133 | removes every row of the requester and no other, and answers 204 (also on an empty cart) |
| `CartApi.ShoppingCartStore.ViewShoppingCart` | grocery_store/api/views.py:134-135 | answers 200 with the requester's list, total and count, and changes nothing |
| `CartApi.ShoppingCartStore.DeleteProduct` | grocery_store/products/models.py:134-139 | a missing product gives 404 and changes nothing; otherwise the product and every cart row referencing it go, for all users |
| `CartApi.ShoppingCartStore.DeleteUser` | grocery_store/products/models.py:128-133 | the user and exactly that user's rows go |

## Left out

- HTTP plumbing is left out: response objects, headers, routing, pagination, token authentication. Outcomes are a datatype with a status-code function.
- The cart handlers assume an authenticated requester. `IsOwner` replaces `IsAuthenticated` on these views. Its `has_permission` admits anonymous requests, which then fail inside the ORM; that failure is not modelled.
- Concurrency is left out. Each handler is one atomic step, and the unique constraint settles racing adds.
- The user model, user serializers and password handling are not part of this model.
- Admin screens, images, and the category and subcategory nesting of the product serializer are left out: they are display plumbing.
- `ShoppingCart.__str__` is left out. It reads a field that does not exist (`self.recipe`).
- `ProductInShoppingCartSerializer.get_queryset` is left out: it multiplies two strings. `Serializers.ValidateProduct` uses the requester's cart as its queryset instead.
- The GET branch of `shopping_cart` is not modelled as written. It passes a cart queryset to a serializer built for a user. `CartApi.ShoppingCartStore.ViewShoppingCart` gives the per-user serializer methods' result.
- `check_product_in_shopping_cart_exist` is never called. Its test is the first guard of update and destroy, which is modelled there.
- Parsing of request bodies is left out: a non-integer amount is not modelled. An amount arrives as an optional integer.
- Product fields other than name, slug and price are left out: measurement unit, availability, publication date, subcategory. So are the `max_length` limits, because their settings values are not part of the source.
- Field validators run in forms and the admin, not on save. The model assumes stored products passed them: the store's constructor requires valid products.
- The serialized product in a cart line is reduced to its id and price. The owner is given by its user id; the serializer renders it as the `username` (a `SlugRelatedField`).
- Serializers.ValidateAmount: the upper bound of `amount` is the database backend's (`integer_field_range`); the model fixes Django's default, 2147483647, because the project's database settings are not part of the source.
- `BaseModels.OrderedByName` compares names by code point. A database collation may order differently.
- Rows without ORDER BY come back in table order. The database promises no order at all.

## Findings

| source | as written | input that shows it | evidently intended | confidence | as-written member | corrected member |
|---|---|---|---|---|---|---|
| grocery_store/products/basemodels.py:27-29 | `BaseModel.Meta` declares `ordering = ('name',)`. `Category` and `SubCategory` each declare their own `class Meta` (models.py:15-17, 33-35) that does not subclass `BaseModel.Meta`, and Django does not inherit a Meta from an abstract base in that case. So the listings have no ordering. | a category table holding "b" then "a" may be listed as b, a | listings ordered by name ascending | medium; not executed | `BaseModels.ListingAsWrittenUnordered` | `BaseModels.OrderedByName` |
