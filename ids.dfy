/**
 * Identifiers of stored documents. MongoDB hands out fresh ObjectIds; the model
 * hands out naturals from a per-collection counter, which is fresh in the same way.
 */
module Ids {
  type UserId = nat
  type TaskId = nat
}
