/**
 * The device key/value store the session logic writes to, reduced to a map from key to
 * stored string. Each call is one atomic step.
 */
module AsyncStorage {
  import opened Wrappers

  class Storage {
    var items: map<string, string>

    constructor (initial: map<string, string>)
      ensures items == initial
    {
      items := initial;
    }

    /** `getItem`: the stored string, or `null` when the key is absent. */
    method GetItem(key: string) returns (value: Option<string>)
      ensures value.Some? <==> key in items
      ensures value.Some? ==> value.value == items[key]
    {
      value := if key in items then Some(items[key]) else None;
    }

    /** `setItem`: stores `value` under `key`, leaving every other key alone. */
    method SetItem(key: string, value: string)
      modifies this
      ensures items == old(items)[key := value]
    {
      items := items[key := value];
    }

    /** `clear`: removes every key. */
    method Clear()
      modifies this
      ensures items == map[]
    {
      items := map[];
    }

    /** `multiRemove`: removes the listed keys, leaving every other key alone. */
    method MultiRemove(keys: seq<string>)
      modifies this
      ensures items == old(items) - (set k | k in keys)
    {
      items := items - (set k | k in keys);
    }
  }
}
