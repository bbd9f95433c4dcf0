/**
 * The validation error a list block raises: one carrier whose `params` map
 * holds per-item error lists under item indices and list-level error lists
 * under the distinguished NON_FIELD_ERRORS key.
 */
module ListErrors {

  /** A key of `params`: an item index, or Django's NON_FIELD_ERRORS. */
  datatype ParamKey = ItemIndex(index: nat) | NonFieldErrors

  /**
   * One validation error: the child's own, or a list-level bound message
   * ("Maximum of n is reached", "Minimum of n is required") as a tag.
   */
  datatype BlockError<E> = ChildError(error: E) | MaxReached(maxLength: int) | MinRequired(minLength: int)

  type ErrorList<E> = seq<BlockError<E>>

  type Params<E> = map<ParamKey, ErrorList<E>>

  /**
   * The `params` of `ListBlockValidationError(block_errors, non_block_errors)`:
   * every per-item error under its index, and the list-level errors under
   * NON_FIELD_ERRORS only when there are any. An absent argument is the
   * empty map or the empty list.
   */
  function ValidationErrorParams<E>(blockErrors: map<nat, ErrorList<E>>, nonBlockErrors: ErrorList<E>): (params: Params<E>)
    ensures forall i: nat :: ItemIndex(i) in params <==> i in blockErrors
    ensures forall i :: i in blockErrors ==> params[ItemIndex(i)] == blockErrors[i]
    ensures NonFieldErrors in params <==> nonBlockErrors != []
    ensures NonFieldErrors in params ==> params[NonFieldErrors] == nonBlockErrors
  {
    var items := map i | i in blockErrors :: ItemIndex(i) := blockErrors[i];
    if nonBlockErrors != [] then items[NonFieldErrors := nonBlockErrors] else items
  }
}
