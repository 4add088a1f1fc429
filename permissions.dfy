/** The `IsOwner` permission class. */
module Permissions {
  import opened Models

  /** `has_object_permission`: the row's user is the requester. It reads
      nothing but its arguments, so it cannot change the tables. */
  predicate HasObjectPermission(row: CartRow, requester: UserId) {
    row.user == requester
  }

  /** The verdict depends on the row's user alone: its product and amount
      play no part, and a row of another user is always refused. */
  lemma PermissionOnlyByOwner(row: CartRow, requester: UserId, product: ProductId, amount: int)
    ensures HasObjectPermission(row, requester) <==> row.user == requester
    ensures HasObjectPermission(row.(product := product, amount := amount), requester)
            == HasObjectPermission(row, requester)
    ensures row.user != requester ==> !HasObjectPermission(row, requester)
  {
  }

  /** The lookup filters on the requester first, so every row it finds passes the
      object check: the check can never answer 403 on this view. */
  lemma LookedUpRowIsPermitted(rows: seq<CartRow>, requester: UserId, p: ProductId)
    ensures FindRow(rows, requester, p).Some? ==>
              HasObjectPermission(rows[FindRow(rows, requester, p).value], requester)
  {
  }
}
