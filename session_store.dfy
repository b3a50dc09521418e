/**
 * The session store of src/stores/sessionStore.ts: the session uuid and API version the
 * server last reported. A change of session removes the cached message and participant
 * lists from storage.
 */
module SessionStore {
  import opened Wrappers
  import opened Api
  import opened AsyncStorage

  const CachedKeys: set<string> := {"messages", "participants"}

  /** `prevUuid && prevUuid !== sessionUuid`: a non-empty previous uuid different from the new one. */
  predicate Rotates(prev: Option<string>, uuid: string) {
    prev.Some? && prev.value != "" && prev.value != uuid
  }

  /** Storage after `fetchInfo` learns session `uuid`, the store having held `prev`. */
  function CacheAfterInfo(prev: Option<string>, uuid: string, items: map<string, string>): (r: map<string, string>)
    ensures Rotates(prev, uuid) ==> r.Keys == items.Keys - CachedKeys
    ensures !Rotates(prev, uuid) ==> r == items
    ensures forall k :: k in r ==> k in items && r[k] == items[k]
    ensures forall k :: k in items && k !in CachedKeys ==> k in r
  {
    if Rotates(prev, uuid) then items - CachedKeys else items
  }

  /** The first call, before any session is known, never clears anything. */
  lemma FirstFetchKeepsCache(uuid: string, items: map<string, string>)
    ensures CacheAfterInfo(None, uuid, items) == items
  {
  }

  /** A cached list survives exactly when the session did not change or it was not stored. */
  lemma CachedKeyRemovedIff(prev: Option<string>, uuid: string, items: map<string, string>, key: string)
    requires key in CachedKeys && key in items
    ensures key !in CacheAfterInfo(prev, uuid, items) <==> Rotates(prev, uuid)
  {
  }

  class SessionState {
    var sessionUuid: Option<string>
    var apiVersion: Option<int>

    constructor ()
      ensures sessionUuid == None && apiVersion == None
    {
      sessionUuid, apiVersion := None, None;
    }

    /**
     * `fetchInfo`: clears the cached lists on a session change, then records the server's
     * values. On a failure the store is untouched; storage too, unless the answer was a
     * 401, on which the response interceptor has cleared all of it.
     */
    method FetchInfo(storage: Storage, info: Response<ServerInfo>)
      modifies this, storage
      ensures info.Ok? ==> sessionUuid == Some(info.data.sessionUuid) && apiVersion == Some(info.data.apiVersion)
      ensures info.Ok? ==> storage.items == CacheAfterInfo(old(sessionUuid), info.data.sessionUuid, old(storage.items))
      ensures info.Failure? ==> unchanged(this)
      ensures info.Unauthorized() ==> storage.items == map[]
      ensures info.Failure? && !info.Unauthorized() ==> storage.items == old(storage.items)
    {
      if info.Failure? {
        if info.Unauthorized() {
          storage.Clear();
        }
        return;
      }
      var prevUuid := sessionUuid;
      if prevUuid.Some? && prevUuid.value != "" && prevUuid.value != info.data.sessionUuid {
        storage.MultiRemove(["messages", "participants"]);
      }
      sessionUuid, apiVersion := Some(info.data.sessionUuid), Some(info.data.apiVersion);
    }
  }
}
