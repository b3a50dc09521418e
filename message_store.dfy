/**
 * The message store of src/stores/messageStore.ts: a message list and the watermark
 * `lastFetchedAt`. `fetchUpdates` folds the delta into a copy of the list, one update
 * at a time: an update whose uuid is already present overwrites the first entry with
 * that uuid, any other update is pushed at the end.
 */
module MessageStore {
  import opened Wrappers
  import opened Api
  import opened Seqs

  datatype Attachment = Attachment(imageUrl: string)

  datatype Message = Message(
    uuid: string,
    text: string,
    authorUuid: string,
    sentAt: int,
    editedAt: Option<int>,
    attachment: Option<Attachment>)

  function UuidOf(m: Message): string { m.uuid }

  function Ids(ms: seq<Message>): set<string> { KeySet(ms, UuidOf) }

  /** `findIndex(m => m.uuid === id)`: the first position holding `id`, or -1. */
  function FindIndex(ms: seq<Message>, id: string): (r: int)
    ensures -1 <= r < |ms|
    ensures r >= 0 ==> ms[r].uuid == id
    ensures forall j :: 0 <= j < |ms| && (r < 0 || j < r) ==> ms[j].uuid != id
  {
    if ms == [] then -1
    else if ms[0].uuid == id then 0
    else
      var k := FindIndex(ms[1..], id);
      if k < 0 then -1 else k + 1
  }

  /**
   * One step of the `forEach`: the update lands at the first position holding its uuid,
   * or at the end when there is none; no other entry changes, and the uuids gain its own.
   */
  function ApplyUpdate(ms: seq<Message>, updated: Message): (r: seq<Message>)
    ensures var k := FindIndex(ms, updated.uuid);
      && |r| == (if k >= 0 then |ms| else |ms| + 1)
      && r[if k >= 0 then k else |ms|] == updated
      && forall j :: 0 <= j < |ms| && j != k ==> r[j] == ms[j]
    ensures Ids(r) == Ids(ms) + {updated.uuid}
  {
    var index := FindIndex(ms, updated.uuid);
    if index >= 0 then
      var r := ms[index := updated];
      assert Ids(r) == Ids(ms) + {updated.uuid} by {
        forall id | id in Ids(ms)
          ensures id in Ids(r)
        {
          var x :| x in ms && UuidOf(x) == id;
          var i :| 0 <= i < |ms| && ms[i] == x;
          assert r[i] in r && r[i].uuid == id;
        }
        forall id | id in Ids(r)
          ensures id in Ids(ms)
        {
          var x :| x in r && UuidOf(x) == id;
          var i :| 0 <= i < |r| && r[i] == x;
          assert ms[i] in ms && ms[i].uuid == id;
        }
        assert ms[index] in ms;
      }
      r
    else
      IdsSnoc(ms, updated);
      ms + [updated]
  }

  /**
   * The list `fetchUpdates` builds: the delta applied in order. Only entries whose uuid
   * the delta names can change, the list only grows, and its uuids are those of the list
   * and of the delta.
   */
  function ApplyDelta(ms: seq<Message>, updates: seq<Message>): (r: seq<Message>)
    ensures |r| >= |ms|
    ensures forall i :: 0 <= i < |ms| && ms[i].uuid !in Ids(updates) ==> r[i] == ms[i]
    ensures Ids(r) == Ids(ms) + Ids(updates)
  {
    if updates == [] then ms
    else
      var n := |updates| - 1;
      assert updates == updates[..n] + [updates[n]];
      IdsSnoc(updates[..n], updates[n]);
      ApplyUpdate(ApplyDelta(ms, updates[..n]), updates[n])
  }

  // ---------------------------------------------------------------------------
  // A reference definition of the merge that does not run the loop: every entry of the
  // list is compared with the whole delta at once.

  lemma IdsSnoc(ms: seq<Message>, m: Message)
    ensures Ids(ms + [m]) == Ids(ms) + {m.uuid}
  {
    var a, b := Ids(ms + [m]), Ids(ms) + {m.uuid};
    forall y | y in a
      ensures y in b
    {
      var x :| x in ms + [m] && UuidOf(x) == y;
    }
    forall y | y in b
      ensures y in a
    {
      if y == m.uuid {
        assert m in ms + [m];
      } else {
        var x :| x in ms && UuidOf(x) == y;
        assert x in ms + [m];
      }
    }
  }

  /** The last update in `updates` that carries uuid `id`. */
  function LastUpdate(updates: seq<Message>, id: string): (r: Option<Message>)
    ensures r.Some? <==> id in Ids(updates)
    ensures r.Some? ==> r.value in updates && r.value.uuid == id
  {
    if updates == [] then None
    else
      var n := |updates| - 1;
      assert updates == updates[..n] + [updates[n]];
      IdsSnoc(updates[..n], updates[n]);
      if updates[n].uuid == id then Some(updates[n]) else LastUpdate(updates[..n], id)
  }

  /** The uuids of the delta that the list lacks, each once, in the order they first appear. */
  function NewIds(ms: seq<Message>, updates: seq<Message>): (r: seq<string>)
    ensures forall id :: id in r <==> id in Ids(updates) && id !in Ids(ms)
    ensures forall i, j :: 0 <= i < j < |r| ==> r[i] != r[j]
  {
    if updates == [] then []
    else
      var n := |updates| - 1;
      assert updates == updates[..n] + [updates[n]];
      IdsSnoc(updates[..n], updates[n]);
      var before := NewIds(ms, updates[..n]);
      var id := updates[n].uuid;
      if id in Ids(ms) || id in before then before else before + [id]
  }

  /**
   * The new uuids of a shorter delta come first, in the same order: a uuid that first
   * appears earlier in the delta is appended earlier.
   */
  lemma {:induction false} NewIdsPrefix(ms: seq<Message>, updates: seq<Message>, k: nat)
    requires k <= |updates|
    ensures NewIds(ms, updates[..k]) <= NewIds(ms, updates)
    decreases |updates| - k
  {
    if k < |updates| {
      NewIdsPrefix(ms, updates, k + 1);
      var shorter := updates[..k + 1];
      assert shorter[..k] == updates[..k];
      assert NewIds(ms, updates[..k]) <= NewIds(ms, shorter);
    } else {
      assert updates[..k] == updates;
    }
  }

  /**
   * The entry at position `i` after the merge: the last update for its uuid if `i` is
   * the first position holding that uuid and the delta names it; otherwise unchanged.
   */
  function Patched(ms: seq<Message>, updates: seq<Message>, i: nat): Message
    requires i < |ms|
  {
    var last := LastUpdate(updates, ms[i].uuid);
    if FindIndex(ms, ms[i].uuid) == i && last.Some? then last.value else ms[i]
  }

  /** The whole merged list: every entry patched in place, then one entry per new uuid. */
  function Reconciled(ms: seq<Message>, updates: seq<Message>): seq<Message> {
    var news := NewIds(ms, updates);
    seq(|ms|, i requires 0 <= i < |ms| => Patched(ms, updates, i))
      + seq(|news|, j requires 0 <= j < |news| => LastUpdate(updates, news[j]).value)
  }

  // ---------------------------------------------------------------------------
  // Facts used by the proofs.

  lemma FindIndexAt(ms: seq<Message>, id: string, k: int)
    requires 0 <= k < |ms| && ms[k].uuid == id
    requires forall j :: 0 <= j < k ==> ms[j].uuid != id
    ensures FindIndex(ms, id) == k
  {
  }

  lemma FindIndexPresent(ms: seq<Message>, id: string)
    ensures FindIndex(ms, id) >= 0 <==> id in Ids(ms)
  {
    if id in Ids(ms) {
      var m :| m in ms && m.uuid == id;
      var k :| 0 <= k < |ms| && ms[k] == m;
    }
    if FindIndex(ms, id) >= 0 {
      assert ms[FindIndex(ms, id)] in ms;
    }
  }

  /** An index of `NewIds` is where that uuid is. */
  lemma NewIdsIndex(ms: seq<Message>, updates: seq<Message>, id: string) returns (j: nat)
    requires id in NewIds(ms, updates)
    ensures j < |NewIds(ms, updates)| && NewIds(ms, updates)[j] == id
  {
    var news := NewIds(ms, updates);
    j :| 0 <= j < |news| && news[j] == id;
  }

  lemma LastUpdateStep(updates: seq<Message>, u: Message, id: string)
    ensures LastUpdate(updates + [u], id) == if u.uuid == id then Some(u) else LastUpdate(updates, id)
  {
    assert (updates + [u])[..|updates|] == updates;
  }

  lemma NewIdsStep(ms: seq<Message>, updates: seq<Message>, u: Message)
    ensures NewIds(ms, updates + [u]) ==
      if u.uuid in Ids(ms) || u.uuid in NewIds(ms, updates) then NewIds(ms, updates)
      else NewIds(ms, updates) + [u.uuid]
  {
    assert (updates + [u])[..|updates|] == updates;
  }

  /** The shape of `Reconciled`: where each entry comes from, and that uuids stay put. */
  lemma ReconciledShape(ms: seq<Message>, updates: seq<Message>)
    ensures var r, news := Reconciled(ms, updates), NewIds(ms, updates);
      && |r| == |ms| + |news|
      && (forall i :: 0 <= i < |ms| ==> r[i] == Patched(ms, updates, i) && r[i].uuid == ms[i].uuid)
      && (forall j :: 0 <= j < |news| ==> r[|ms| + j] == LastUpdate(updates, news[j]).value && r[|ms| + j].uuid == news[j])
  {
  }

  /** The uuid at each position of `Reconciled`. */
  lemma ReconciledUuid(ms: seq<Message>, updates: seq<Message>, k: nat)
    requires k < |Reconciled(ms, updates)|
    ensures |Reconciled(ms, updates)| == |ms| + |NewIds(ms, updates)|
    ensures Reconciled(ms, updates)[k].uuid == if k < |ms| then ms[k].uuid else NewIds(ms, updates)[k - |ms|]
  {
    ReconciledShape(ms, updates);
  }

  lemma ReconciledEmpty(ms: seq<Message>)
    ensures Reconciled(ms, []) == ms
  {
    ReconciledShape(ms, []);
  }

  /** How one more update changes the patched entry at position `i`. */
  lemma PatchedStep(ms: seq<Message>, updates: seq<Message>, u: Message, i: nat)
    requires i < |ms|
    ensures Patched(ms, updates + [u], i) ==
      if FindIndex(ms, ms[i].uuid) == i && ms[i].uuid == u.uuid then u else Patched(ms, updates, i)
  {
    LastUpdateStep(updates, u, ms[i].uuid);
  }

  /** The appended entries of two merges agree where their uuid lists agree and the last update is not `u`. */
  lemma TailStep(ms: seq<Message>, updates: seq<Message>, u: Message, k: nat)
    requires |ms| <= k < |Reconciled(ms, updates)|
    requires NewIds(ms, updates) <= NewIds(ms, updates + [u])
    requires NewIds(ms, updates)[k - |ms|] != u.uuid
    ensures k < |Reconciled(ms, updates + [u])|
    ensures Reconciled(ms, updates + [u])[k] == Reconciled(ms, updates)[k]
  {
    ReconciledShape(ms, updates);
    ReconciledShape(ms, updates + [u]);
    LastUpdateStep(updates, u, NewIds(ms, updates)[k - |ms|]);
  }

  /** One more update changes, among the existing positions, at most the first position of its uuid. */
  lemma PrefixStep(ms: seq<Message>, updates: seq<Message>, u: Message, i: nat)
    requires i < |ms|
    ensures |Reconciled(ms, updates + [u])| >= |ms| && |Reconciled(ms, updates)| >= |ms|
    ensures Reconciled(ms, updates + [u])[i] ==
      if FindIndex(ms, ms[i].uuid) == i && ms[i].uuid == u.uuid then u else Reconciled(ms, updates)[i]
  {
    ReconciledShape(ms, updates);
    ReconciledShape(ms, updates + [u]);
    PatchedStep(ms, updates, u, i);
  }

  /**
   * One more update leaves every position other than `p` as it was, when no other
   * position is the first of its uuid among the existing entries or carries its uuid
   * among the appended ones.
   */
  lemma OthersUnchanged(ms: seq<Message>, updates: seq<Message>, u: Message, p: int)
    requires NewIds(ms, updates) <= NewIds(ms, updates + [u])
    requires forall i :: 0 <= i < |ms| && i != p ==> !(FindIndex(ms, ms[i].uuid) == i && ms[i].uuid == u.uuid)
    requires forall j :: 0 <= j < |NewIds(ms, updates)| && |ms| + j != p ==> NewIds(ms, updates)[j] != u.uuid
    ensures |Reconciled(ms, updates)| <= |Reconciled(ms, updates + [u])|
    ensures forall k :: 0 <= k < |Reconciled(ms, updates)| && k != p ==>
      Reconciled(ms, updates + [u])[k] == Reconciled(ms, updates)[k]
  {
    var r, r' := Reconciled(ms, updates), Reconciled(ms, updates + [u]);
    assert |r| <= |r'| by {
      ReconciledShape(ms, updates);
      ReconciledShape(ms, updates + [u]);
    }
    forall k | 0 <= k < |r| && k != p
      ensures r'[k] == r[k]
    {
      if k < |ms| {
        PrefixStep(ms, updates, u, k);
      } else {
        ReconciledShape(ms, updates);
        TailStep(ms, updates, u, k);
      }
    }
  }

  lemma EqualExceptAt(a: seq<Message>, b: seq<Message>, p: nat, u: Message)
    requires |a| == |b| && p < |b| && a[p] == u
    requires forall k :: 0 <= k < |a| && k != p ==> a[k] == b[k]
    ensures a == b[p := u]
  {
  }

  lemma EqualPushed(a: seq<Message>, b: seq<Message>, u: Message)
    requires |a| == |b| + 1 && a[|b|] == u
    requires forall k :: 0 <= k < |b| ==> a[k] == b[k]
    ensures a == b + [u]
  {
  }

  /** An update whose uuid the list already holds overwrites the first entry holding it. */
  lemma StepKnown(ms: seq<Message>, updates: seq<Message>, u: Message)
    requires u.uuid in Ids(ms)
    ensures Reconciled(ms, updates + [u]) == ApplyUpdate(Reconciled(ms, updates), u)
  {
    var id := u.uuid;
    var r, r' := Reconciled(ms, updates), Reconciled(ms, updates + [u]);
    var news := NewIds(ms, updates);
    NewIdsStep(ms, updates, u);
    FindIndexPresent(ms, id);
    var i0 := FindIndex(ms, id);
    assert FindIndex(r, id) == i0 by {
      ReconciledShape(ms, updates);
      FindIndexAt(r, id, i0);
    }
    assert |r'| == |r| by {
      ReconciledShape(ms, updates);
      ReconciledShape(ms, updates + [u]);
    }
    PrefixStep(ms, updates, u, i0);
    forall j | 0 <= j < |news|
      ensures news[j] != id
    {
      assert news[j] in news;
    }
    OthersUnchanged(ms, updates, u, i0);
    EqualExceptAt(r', r, i0, u);
  }

  /** A uuid the delta added sits, in the merged list, at its position among the appended entries. */
  lemma AddedIndex(ms: seq<Message>, updates: seq<Message>, j0: nat)
    requires j0 < |NewIds(ms, updates)|
    ensures FindIndex(Reconciled(ms, updates), NewIds(ms, updates)[j0]) == |ms| + j0
  {
    var r, news := Reconciled(ms, updates), NewIds(ms, updates);
    var id := news[j0];
    assert id !in Ids(ms);
    ReconciledUuid(ms, updates, |ms| + j0);
    forall k | 0 <= k < |ms| + j0
      ensures r[k].uuid != id
    {
      ReconciledUuid(ms, updates, k);
      if k < |ms| {
        assert ms[k] in ms;
      } else {
        assert news[k - |ms|] != news[j0];
      }
    }
    FindIndexAt(r, id, |ms| + j0);
  }

  /** An update for a uuid that an earlier update of the delta added overwrites that entry. */
  lemma StepAdded(ms: seq<Message>, updates: seq<Message>, u: Message)
    requires u.uuid !in Ids(ms) && u.uuid in NewIds(ms, updates)
    ensures Reconciled(ms, updates + [u]) == ApplyUpdate(Reconciled(ms, updates), u)
  {
    var id := u.uuid;
    var r, r' := Reconciled(ms, updates), Reconciled(ms, updates + [u]);
    var j0 := NewIdsIndex(ms, updates, id);
    var p := |ms| + j0;
    assert FindIndex(r, id) == p by {
      AddedIndex(ms, updates, j0);
    }
    assert |r'| == |r| && p < |r| && r'[p] == u by {
      NewIdsStep(ms, updates, u);
      ReconciledShape(ms, updates);
      ReconciledShape(ms, updates + [u]);
      LastUpdateStep(updates, u, id);
    }
    assert forall k :: 0 <= k < |r| && k != p ==> r'[k] == r[k] by {
      NewIdsStep(ms, updates, u);
      forall i | 0 <= i < |ms|
        ensures ms[i].uuid != id
      {
        assert ms[i] in ms;
      }
      OthersUnchanged(ms, updates, u, p);
    }
    EqualExceptAt(r', r, p, u);
  }

  /** An update for a uuid seen nowhere yet is pushed at the end. */
  lemma StepNew(ms: seq<Message>, updates: seq<Message>, u: Message)
    requires u.uuid !in Ids(ms) && u.uuid !in NewIds(ms, updates)
    ensures Reconciled(ms, updates + [u]) == ApplyUpdate(Reconciled(ms, updates), u)
  {
    var id := u.uuid;
    var r, r' := Reconciled(ms, updates), Reconciled(ms, updates + [u]);
    var news := NewIds(ms, updates);
    NewIdsStep(ms, updates, u);
    forall i | 0 <= i < |ms|
      ensures ms[i].uuid != id
    {
      assert ms[i] in ms;
    }
    forall j | 0 <= j < |news|
      ensures news[j] != id
    {
      assert news[j] in news;
    }
    assert FindIndex(r, id) == -1 by {
      forall k | 0 <= k < |r|
        ensures r[k].uuid != id
      {
        ReconciledUuid(ms, updates, k);
      }
    }
    assert |r'| == |r| + 1 && r'[|r|] == u by {
      ReconciledShape(ms, updates);
      ReconciledShape(ms, updates + [u]);
      LastUpdateStep(updates, u, id);
    }
    OthersUnchanged(ms, updates, u, -1);
    EqualPushed(r', r, u);
  }

  // ---------------------------------------------------------------------------
  // What `fetchUpdates` promises.

  /** The loop computes the reference merge. */
  lemma {:induction false} ApplyDeltaIsReconciled(ms: seq<Message>, updates: seq<Message>)
    ensures ApplyDelta(ms, updates) == Reconciled(ms, updates)
    decreases |updates|
  {
    if updates == [] {
      ReconciledEmpty(ms);
    } else {
      var n := |updates| - 1;
      var init, u := updates[..n], updates[n];
      assert updates == init + [u];
      ApplyDeltaIsReconciled(ms, init);
      if u.uuid in Ids(ms) {
        StepKnown(ms, init, u);
      } else if u.uuid in NewIds(ms, init) {
        StepAdded(ms, init, u);
      } else {
        StepNew(ms, init, u);
      }
    }
  }

  /**
   * An entry at the first position of its uuid, when the delta names that uuid, is
   * replaced at the same position by the last update carrying it.
   */
  lemma FetchUpdatesReplacesInPlace(ms: seq<Message>, updates: seq<Message>, i: nat)
    requires i < |ms| && FindIndex(ms, ms[i].uuid) == i && ms[i].uuid in Ids(updates)
    ensures |ApplyDelta(ms, updates)| >= |ms|
    ensures ApplyDelta(ms, updates)[i] == LastUpdate(updates, ms[i].uuid).value
  {
    ApplyDeltaIsReconciled(ms, updates);
    ReconciledShape(ms, updates);
  }

  /** Every other existing entry, in particular every one the delta does not name, stays where it was. */
  lemma FetchUpdatesKeepsOthers(ms: seq<Message>, updates: seq<Message>, i: nat)
    requires i < |ms| && (FindIndex(ms, ms[i].uuid) != i || ms[i].uuid !in Ids(updates))
    ensures |ApplyDelta(ms, updates)| >= |ms|
    ensures ApplyDelta(ms, updates)[i] == ms[i]
  {
    ApplyDeltaIsReconciled(ms, updates);
    ReconciledShape(ms, updates);
  }

  /**
   * The list grows by one entry per distinct uuid the delta adds, pushed in the order
   * those uuids first appear in the delta, each holding the last update for its uuid.
   */
  lemma FetchUpdatesAppendsNew(ms: seq<Message>, updates: seq<Message>)
    ensures var r, news := ApplyDelta(ms, updates), NewIds(ms, updates);
      && |r| == |ms| + |news|
      && |news| == |Ids(updates) - Ids(ms)|
      && forall j :: 0 <= j < |news| ==> r[|ms| + j] == LastUpdate(updates, news[j]).value
  {
    ApplyDeltaIsReconciled(ms, updates);
    ReconciledShape(ms, updates);
    var news := NewIds(ms, updates);
    DistinctCount(news);
    assert (set id | id in news) == Ids(updates) - Ids(ms);
  }

  lemma {:induction false} DistinctCount(s: seq<string>)
    requires forall i, j :: 0 <= i < j < |s| ==> s[i] != s[j]
    ensures |set x | x in s| == |s|
  {
    if s != [] {
      var n := |s| - 1;
      DistinctCount(s[..n]);
      assert (set x | x in s) == (set x | x in s[..n]) + {s[n]};
      assert s[n] !in (set x | x in s[..n]);
    }
  }

  /** Of two updates with the same uuid in one delta, the later is the one that lands. */
  lemma {:induction false} LaterUpdateWins(updates: seq<Message>, k: nat)
    requires k < |updates|
    requires forall k' :: k < k' < |updates| ==> updates[k'].uuid != updates[k].uuid
    ensures LastUpdate(updates, updates[k].uuid) == Some(updates[k])
    decreases |updates|
  {
    var n := |updates| - 1;
    if k < n {
      assert updates[..n][k] == updates[k];
      LaterUpdateWins(updates[..n], k);
    }
  }

  /** Applying the same delta twice gives the list that applying it once gives. */
  lemma FetchUpdatesIdempotent(ms: seq<Message>, updates: seq<Message>)
    ensures ApplyDelta(ApplyDelta(ms, updates), updates) == ApplyDelta(ms, updates)
  {
    var r := ApplyDelta(ms, updates);
    ApplyDeltaIsReconciled(ms, updates);
    ApplyDeltaIsReconciled(r, updates);
    NothingNewTwice(ms, updates);
    var r' := Reconciled(r, updates);
    assert |r'| == |r| by {
      ReconciledShape(r, updates);
    }
    forall i | 0 <= i < |r|
      ensures r'[i] == r[i]
    {
      ReconciledShape(r, updates);
      PatchedFixed(ms, updates, i);
    }
    assert r' == r;
  }

  /** After a merge, the list holds every uuid of the delta. */
  lemma NothingNewTwice(ms: seq<Message>, updates: seq<Message>)
    ensures NewIds(Reconciled(ms, updates), updates) == []
  {
    var r := Reconciled(ms, updates);
    forall id | id in Ids(updates)
      ensures id in Ids(r)
    {
      DeltaIdKept(ms, updates, id);
    }
    var again := NewIds(r, updates);
    if again != [] {
      assert again[0] in again;
    }
  }

  lemma DeltaIdKept(ms: seq<Message>, updates: seq<Message>, id: string)
    requires id in Ids(updates)
    ensures id in Ids(Reconciled(ms, updates))
  {
    var r := Reconciled(ms, updates);
    ReconciledShape(ms, updates);
    if id in Ids(ms) {
      var m :| m in ms && m.uuid == id;
      var i :| 0 <= i < |ms| && ms[i] == m;
      assert r[i] in r;
    } else {
      var j := NewIdsIndex(ms, updates, id);
      assert r[|ms| + j] in r;
    }
  }

  /** After a merge, each entry is already what the delta would patch it to. */
  lemma PatchedFixed(ms: seq<Message>, updates: seq<Message>, i: nat)
    requires i < |Reconciled(ms, updates)|
    ensures Patched(Reconciled(ms, updates), updates, i) == Reconciled(ms, updates)[i]
  {
    var r := Reconciled(ms, updates);
    var id := r[i].uuid;
    ReconciledShape(ms, updates);
    if FindIndex(r, id) == i && id in Ids(updates) && i < |ms| {
      forall j | 0 <= j < i
        ensures ms[j].uuid != id
      {
        assert r[j].uuid == ms[j].uuid;
      }
      FindIndexAt(ms, id, i);
    }
  }

  /** Merging never introduces a repeated uuid. */
  lemma FetchUpdatesKeepsIdsUnique(ms: seq<Message>, updates: seq<Message>)
    requires DistinctKeys(ms, UuidOf)
    ensures DistinctKeys(ApplyDelta(ms, updates), UuidOf)
  {
    var r := ApplyDelta(ms, updates);
    ApplyDeltaIsReconciled(ms, updates);
    ReconciledShape(ms, updates);
    var news := NewIds(ms, updates);
    forall i, j | 0 <= i < j < |r|
      ensures r[i].uuid != r[j].uuid
    {
      if j < |ms| {
        assert UuidOf(ms[i]) != UuidOf(ms[j]);
      } else if i >= |ms| {
        assert news[i - |ms|] != news[j - |ms|];
      } else {
        assert ms[i] in ms && news[j - |ms|] in news;
      }
    }
  }

  /** The list `[1, 2 "old"]` with the delta `[2 "edited"]` becomes `[1, 2 "edited"]`. */
  lemma EditExample(one: Message, two: Message, edited: Message)
    requires one.uuid != two.uuid && edited.uuid == two.uuid
    ensures ApplyDelta([one, two], [edited]) == [one, edited]
  {
    assert [edited][..0] == [];
    FindIndexAt([one, two], edited.uuid, 1);
  }

  class MessageState {
    var list: seq<Message>
    var lastFetchedAt: int

    constructor (now: int)
      ensures list == [] && lastFetchedAt == now
    {
      list, lastFetchedAt := [], now;
    }

    /** `fetchLatest`: the page replaces the list. A failed request throws and changes nothing. */
    method FetchLatest(response: Response<seq<Message>>, now: int)
      modifies this
      ensures response.Ok? ==> list == response.data && lastFetchedAt == now
      ensures response.Failure? ==> unchanged(this)
    {
      if response.Ok? {
        list, lastFetchedAt := response.data, now;
      }
    }

    /** `fetchOlder`: the page answering `/messages/older/{beforeUuid}` goes before the list. */
    method FetchOlder(response: Response<seq<Message>>)
      modifies this
      ensures response.Ok? ==> list == response.data + old(list) && lastFetchedAt == old(lastFetchedAt)
      ensures response.Failure? ==> unchanged(this)
    {
      if response.Ok? {
        list := response.data + list;
      }
    }

    /**
     * `fetchUpdates`: folds the delta into a copy of the list and moves the watermark
     * to `now`, also when the delta is empty.
     */
    method FetchUpdates(response: Response<seq<Message>>, now: int)
      modifies this
      ensures response.Ok? ==> list == ApplyDelta(old(list), response.data) && lastFetchedAt == now
      ensures response.Failure? ==> unchanged(this)
    {
      if response.Failure? {
        return;
      }
      var updates := response.data;
      var merged := list;
      var k := 0;
      while k < |updates|
        invariant 0 <= k <= |updates|
        invariant merged == ApplyDelta(old(list), updates[..k])
      {
        assert updates[..k + 1][..k] == updates[..k];
        var updated := updates[k];
        var index := FindIndex(merged, updated.uuid);
        if index >= 0 {
          merged := merged[index := updated];
        } else {
          merged := merged + [updated];
        }
        k := k + 1;
      }
      assert updates[..k] == updates;
      list, lastFetchedAt := merged, now;
    }
  }
}
