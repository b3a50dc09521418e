/**
 * The persisted participant directory of src/store/userParticipantStore.js: a map from
 * participant uuid to participant, rebuilt from scratch from every list it is given.
 */
module UserParticipantStore {
  import opened Api
  import opened ChatTypes
  import opened Seqs

  /** The map that writing `map[p.uuid] = p` for each participant in order leaves behind. */
  function Index(list: seq<ChatParticipant>): (r: map<string, ChatParticipant>)
    ensures forall id :: id in r ==> r[id].uuid == id
  {
    if list == [] then map[]
    else
      var last := list[|list| - 1];
      Index(list[..|list| - 1])[last.uuid := last]
  }

  function UuidOf(p: ChatParticipant): string { p.uuid }

  function Uuids(list: seq<ChatParticipant>): set<string> { KeySet(list, UuidOf) }

  /** The keys of the index are exactly the uuids of the list; an empty list gives an empty map. */
  lemma {:induction false} IndexKeys(list: seq<ChatParticipant>)
    ensures Index(list).Keys == Uuids(list)
  {
    if list != [] {
      var n := |list| - 1;
      IndexKeys(list[..n]);
      assert list == list[..n] + [list[n]];
      assert Uuids(list) == Uuids(list[..n]) + {list[n].uuid} by {
        forall id | id in Uuids(list)
          ensures id in Uuids(list[..n]) + {list[n].uuid}
        {
          var p :| p in list && UuidOf(p) == id;
          if p != list[n] {
            assert p in list[..n];
          }
        }
        forall id | id in Uuids(list[..n]) + {list[n].uuid}
          ensures id in Uuids(list)
        {
          if id != list[n].uuid {
            var p :| p in list[..n] && UuidOf(p) == id;
            assert p in list;
          } else {
            assert UuidOf(list[n]) == id;
          }
        }
      }
    }
  }

  /** Each entry of the index is a participant of the list filed under its own uuid. */
  lemma {:induction false} IndexFromList(list: seq<ChatParticipant>, id: string)
    requires id in Index(list)
    ensures Index(list)[id] in list && Index(list)[id].uuid == id
  {
    var n := |list| - 1;
    if list[n].uuid != id {
      IndexFromList(list[..n], id);
    }
  }

  /** The entry for a uuid is the last participant of the list carrying it. */
  lemma {:induction false} IndexLastWins(list: seq<ChatParticipant>, k: nat)
    requires k < |list|
    requires forall k' :: k < k' < |list| ==> list[k'].uuid != list[k].uuid
    ensures list[k].uuid in Index(list) && Index(list)[list[k].uuid] == list[k]
  {
    var n := |list| - 1;
    if k < n {
      assert list[..n][k] == list[k];
      IndexLastWins(list[..n], k);
    }
  }

  /** The `forEach` that fills a fresh object. */
  method IndexByUuid(list: seq<ChatParticipant>) returns (m: map<string, ChatParticipant>)
    ensures m == Index(list)
  {
    m := map[];
    var i := 0;
    while i < |list|
      invariant 0 <= i <= |list|
      invariant m == Index(list[..i])
    {
      assert list[..i + 1][..i] == list[..i];
      var p := list[i];
      m := m[p.uuid := p];
      i := i + 1;
    }
    assert list[..i] == list;
  }

  class ParticipantsStore {
    var participants: map<string, ChatParticipant>

    constructor ()
      ensures participants == map[]
    {
      participants := map[];
    }

    /** `setParticipants`: the old map is discarded and the index of `list` takes its place. */
    method SetParticipants(list: seq<ChatParticipant>)
      modifies this
      ensures participants == Index(list)
    {
      participants := IndexByUuid(list);
    }

    /** `fetchParticipants`: the same rebuild, from `GET /participants/all`. A failed request changes nothing. */
    method FetchParticipants(response: Response<seq<ChatParticipant>>)
      modifies this
      ensures response.Ok? ==> participants == Index(response.data)
      ensures response.Failure? ==> unchanged(this)
    {
      if response.Ok? {
        participants := IndexByUuid(response.data);
      }
    }
  }
}
