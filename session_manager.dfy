/**
 * `checkAndHandleSession` of src/api/sessionManager.js: when the session uuid the server
 * reports differs from the stored one, or none is stored, all of storage is wiped and
 * the new uuid stored; otherwise storage is left as it is.
 */
module SessionManager {
  import opened Wrappers
  import opened Api
  import opened AsyncStorage

  const SessionKey := "session-uuid"

  /** Storage after the check, when the server reports session `uuid`. */
  function AfterCheck(items: map<string, string>, uuid: string): (r: map<string, string>)
    ensures SessionKey in r && r[SessionKey] == uuid
    ensures SessionKey in items && items[SessionKey] == uuid ==> r == items
    ensures !(SessionKey in items && items[SessionKey] == uuid) ==> r.Keys == {SessionKey}
  {
    if SessionKey in items && items[SessionKey] == uuid then items else map[SessionKey := uuid]
  }

  /** Checking twice against the same server session wipes at most once. */
  lemma AfterCheckIdempotent(items: map<string, string>, uuid: string)
    ensures AfterCheck(AfterCheck(items, uuid), uuid) == AfterCheck(items, uuid)
  {
  }

  /**
   * Reads `GET /info`, compares with the stored uuid, and rotates. A failed request
   * rejects before storage is read; storage is untouched, except that a 401 answer has
   * already made the response interceptor clear all of it.
   */
  method CheckAndHandleSession(storage: Storage, info: Response<ServerInfo>)
    modifies storage
    ensures info.Ok? ==> storage.items == AfterCheck(old(storage.items), info.data.sessionUuid)
    ensures info.Unauthorized() ==> storage.items == map[]
    ensures info.Failure? && !info.Unauthorized() ==> storage.items == old(storage.items)
  {
    if info.Failure? {
      if info.Unauthorized() {
        storage.Clear();
      }
      return;
    }
    var uuid := info.data.sessionUuid;
    var storedSession := storage.GetItem(SessionKey);
    if storedSession != Some(uuid) {
      storage.Clear();
      storage.SetItem(SessionKey, uuid);
    }
  }
}
