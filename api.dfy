/**
 * What the HTTP client of src/api/api.js hands back to the stores. The client itself
 * (axios, NetInfo) is not modelled: each request is replaced by its outcome, which the
 * caller of a store action supplies. The one side effect of its interceptors, the
 * storage wipe on a 401 answer, is modelled by the actions that model storage.
 */
module Api {
  import opened Wrappers

  /**
   * The outcome of one request: the response body, or a rejected promise. A request
   * made while the device is offline is rejected before dispatch with an error whose
   * `isOffline` flag is set and that carries no HTTP status. Any other failure has the
   * flag clear; `status` is `error.response?.status`, `None` when no answer came.
   */
  datatype Response<+T> = Ok(data: T) | Failure(isOffline: bool, status: Option<int>)
  {
    /** The answer the response interceptor reacts to by clearing all of storage. */
    predicate Unauthorized() {
      Failure? && status == Some(401)
    }
  }

  /** The body of `GET /info`. */
  datatype ServerInfo = ServerInfo(sessionUuid: string, apiVersion: int)
}
