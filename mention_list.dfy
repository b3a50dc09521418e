/**
 * The filter of src/components/MentionList.js: the participants whose lower-cased name
 * contains the lower-cased query, in the order the directory yields them. Lower-casing
 * is a parameter, since its Unicode case mapping is not modelled.
 */
module MentionList {
  import opened ChatTypes
  import opened Seqs

  /** `t` occurs in `s` starting at position `i`. */
  predicate OccursAt(s: string, t: string, i: nat) {
    i + |t| <= |s| && s[i..i + |t|] == t
  }

  /** `s.includes(t)`: `t` occurs in `s` at some position. */
  function Includes(s: string, t: string): (r: bool)
    ensures r <==> exists i: nat :: OccursAt(s, t, i)
    decreases |s|
  {
    if |t| > |s| then false
    else if s[..|t|] == t then
      assert OccursAt(s, t, 0);
      true
    else
      var rest := Includes(s[1..], t);
      IncludesShift(s, t);
      rest
  }

  /** Past a mismatch at position 0, `t` occurs in `s` exactly when it occurs in `s[1..]`. */
  lemma IncludesShift(s: string, t: string)
    requires |t| <= |s| && s[..|t|] != t
    ensures (exists i: nat :: OccursAt(s, t, i)) <==> (exists i: nat :: OccursAt(s[1..], t, i))
  {
    if exists i: nat :: OccursAt(s, t, i) {
      var i: nat :| OccursAt(s, t, i);
      assert i != 0;
      assert s[1..][i - 1..i - 1 + |t|] == s[i..i + |t|];
      assert OccursAt(s[1..], t, i - 1);
    }
    if exists i: nat :: OccursAt(s[1..], t, i) {
      var i: nat :| OccursAt(s[1..], t, i);
      assert s[i + 1..i + 1 + |t|] == s[1..][i..i + |t|];
      assert OccursAt(s, t, i + 1);
    }
  }

  /** The mention test for one participant. */
  predicate Matches(p: ChatParticipant, query: string, lower: string -> string) {
    Includes(lower(p.name), lower(query))
  }

  /** `filteredParticipants`, over the directory's values in their order. */
  function FilteredParticipants(participants: seq<ChatParticipant>, query: string, lower: string -> string): (r: seq<ChatParticipant>)
    ensures |r| <= |participants|
    ensures forall p :: p in r <==> p in participants && Matches(p, query, lower)
    ensures forall p :: multiset(r)[p] == if Matches(p, query, lower) then multiset(participants)[p] else 0
  {
    var keep := p => Matches(p, query, lower);
    FilterCounts(participants, keep);
    Filter(participants, keep)
  }

  /**
   * The filter works participant by participant: filtering a concatenation is
   * concatenating the filtered parts, so the kept participants keep their order.
   */
  lemma FilteredSplits(front: seq<ChatParticipant>, back: seq<ChatParticipant>, query: string, lower: string -> string)
    ensures FilteredParticipants(front + back, query, lower) ==
      FilteredParticipants(front, query, lower) + FilteredParticipants(back, query, lower)
  {
    FilterAppend(front, back, p => Matches(p, query, lower));
  }

  /** An empty query lists every participant, since every string includes the empty one. */
  lemma EmptyQueryListsEveryone(participants: seq<ChatParticipant>, lower: string -> string)
    requires lower("") == ""
    ensures FilteredParticipants(participants, "", lower) == participants
  {
    forall p | p in participants
      ensures Matches(p, "", lower)
    {
      assert OccursAt(lower(p.name), "", 0);
    }
    FilterAll(participants, p => Matches(p, "", lower));
  }
}
