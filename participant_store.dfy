/**
 * The participant store of src/stores/participantStore.ts: a participant list and the
 * watermark `lastUpdatedAt`. `fetchUpdates` drops every participant the delta names and
 * appends the whole delta after the survivors.
 */
module ParticipantStore {
  import opened Api
  import opened Seqs

  datatype Participant = Participant(uuid: string, name: string, avatarUrl: string, updatedAt: int)

  function UuidOf(p: Participant): string { p.uuid }

  function Ids(ps: seq<Participant>): set<string> { KeySet(ps, UuidOf) }

  /**
   * The merged list: the participants the delta does not name, in their order, then the
   * delta in its order.
   */
  function Merge(list: seq<Participant>, updates: seq<Participant>): (r: seq<Participant>)
    ensures |r| == |Without(list, UuidOf, Ids(updates))| + |updates|
    ensures r[|r| - |updates|..] == updates
    ensures forall p :: p in r <==> p in updates || (p in list && p.uuid !in Ids(updates))
  {
    Without(list, UuidOf, Ids(updates)) + updates
  }

  /** Merging the same delta a second time changes nothing. */
  lemma MergeIdempotent(list: seq<Participant>, updates: seq<Participant>)
    ensures Merge(Merge(list, updates), updates) == Merge(list, updates)
  {
    var kept := Without(list, UuidOf, Ids(updates));
    var m := Merge(list, updates);
    assert m == kept + updates;
    assert Without(m, UuidOf, Ids(updates)) == kept by {
      WithoutAppend(kept, updates, UuidOf, Ids(updates));
      WithoutNothing(kept, UuidOf, Ids(updates));
      WithoutEverything(updates, UuidOf, Ids(updates));
      assert kept + [] == kept;
    }
    assert Merge(m, updates) == kept + updates;
  }

  /** A list without repeated uuids stays so after merging a delta without repeated uuids. */
  lemma MergeKeepsIdsUnique(list: seq<Participant>, updates: seq<Participant>)
    requires DistinctKeys(list, UuidOf) && DistinctKeys(updates, UuidOf)
    ensures DistinctKeys(Merge(list, updates), UuidOf)
  {
    var kept := Without(list, UuidOf, Ids(updates));
    WithoutDistinct(list, UuidOf, Ids(updates));
    forall x, y | x in kept && y in updates
      ensures UuidOf(x) != UuidOf(y)
    {
    }
    AppendDistinct(kept, updates, UuidOf);
  }

  /** The uuids after the merge are those before it together with those of the delta. */
  lemma MergeIds(list: seq<Participant>, updates: seq<Participant>)
    ensures Ids(Merge(list, updates)) == Ids(list) + Ids(updates)
  {
    var r := Merge(list, updates);
    forall id | id in Ids(list) + Ids(updates)
      ensures id in Ids(r)
    {
      if id in Ids(updates) {
        var p :| p in updates && UuidOf(p) == id;
        assert p in r;
      } else {
        var p :| p in list && UuidOf(p) == id;
        assert p in r;
      }
    }
  }

  class ParticipantState {
    var list: seq<Participant>
    var lastUpdatedAt: int

    constructor (now: int)
      ensures list == [] && lastUpdatedAt == now
    {
      list, lastUpdatedAt := [], now;
    }

    /** `fetchAll`: the fetched list replaces the old one. A failed request changes nothing. */
    method FetchAll(response: Response<seq<Participant>>, now: int)
      modifies this
      ensures response.Ok? ==> list == response.data && lastUpdatedAt == now
      ensures response.Failure? ==> unchanged(this)
    {
      if response.Ok? {
        list, lastUpdatedAt := response.data, now;
      }
    }

    /** `fetchUpdates`: the delta is merged in and the watermark moves to `now`. */
    method FetchUpdates(response: Response<seq<Participant>>, now: int)
      modifies this
      ensures response.Ok? ==> list == Merge(old(list), response.data) && lastUpdatedAt == now
      ensures response.Failure? ==> unchanged(this)
    {
      if response.Ok? {
        list, lastUpdatedAt := Merge(list, response.data), now;
      }
    }
  }
}
