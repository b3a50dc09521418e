/**
 * The tally of src/components/ReactionBar.js: the reactions of one message reduced to a
 * count per emoji, then one chip per emoji in the order the object's entries come out,
 * which for these string keys is the order each emoji was first seen.
 */
module ReactionBar {
  import opened Wrappers
  import opened ChatTypes

  /** How many reactions carry `emoji`. */
  function Count(reactions: seq<Reaction>, emoji: string): nat {
    if reactions == [] then 0
    else
      var n := |reactions| - 1;
      Count(reactions[..n], emoji) + (if reactions[n].emoji == emoji then 1 else 0)
  }

  function Emojis(reactions: seq<Reaction>): set<string> {
    set r | r in reactions :: r.emoji
  }

  /** The distinct emojis, in order of first appearance. */
  function FirstSeen(reactions: seq<Reaction>): (r: seq<string>)
    ensures forall e :: e in r <==> e in Emojis(reactions)
    ensures forall i, j :: 0 <= i < j < |r| ==> r[i] != r[j]
  {
    if reactions == [] then []
    else
      var n := |reactions| - 1;
      EmojisAppend(reactions[..n], reactions[n]);
      assert reactions == reactions[..n] + [reactions[n]];
      var before := FirstSeen(reactions[..n]);
      if reactions[n].emoji in before then before else before + [reactions[n].emoji]
  }

  /**
   * The emojis of a shorter prefix come first, in the same order: an emoji first used
   * earlier gets its chip earlier.
   */
  lemma {:induction false} FirstSeenPrefix(reactions: seq<Reaction>, k: nat)
    requires k <= |reactions|
    ensures FirstSeen(reactions[..k]) <= FirstSeen(reactions)
    decreases |reactions| - k
  {
    if k < |reactions| {
      FirstSeenPrefix(reactions, k + 1);
      var shorter := reactions[..k + 1];
      assert shorter[..k] == reactions[..k];
      assert FirstSeen(reactions[..k]) <= FirstSeen(shorter);
    } else {
      assert reactions[..k] == reactions;
    }
  }

  /** The counts of the emojis `keys`, added up. */
  function Total(keys: seq<string>, reactions: seq<Reaction>): nat {
    if keys == [] then 0 else Total(keys[..|keys| - 1], reactions) + Count(reactions, keys[|keys| - 1])
  }

  lemma EmojisAppend(reactions: seq<Reaction>, r: Reaction)
    ensures Emojis(reactions + [r]) == Emojis(reactions) + {r.emoji}
  {
    var a, b := Emojis(reactions + [r]), Emojis(reactions) + {r.emoji};
    forall e | e in a
      ensures e in b
    {
      var x :| x in reactions + [r] && x.emoji == e;
    }
    forall e | e in b
      ensures e in a
    {
      if e == r.emoji {
        assert r in reactions + [r];
      } else {
        var x :| x in reactions && x.emoji == e;
        assert x in reactions + [r];
      }
    }
  }

  /** One more reaction adds one to its own emoji's count and leaves the others alone. */
  lemma CountAppend(reactions: seq<Reaction>, r: Reaction, emoji: string)
    ensures Count(reactions + [r], emoji) == Count(reactions, emoji) + (if r.emoji == emoji then 1 else 0)
  {
    assert (reactions + [r])[..|reactions|] == reactions;
  }

  /** An emoji is counted at least once exactly when some reaction carries it. */
  lemma {:induction false} CountPositive(reactions: seq<Reaction>, emoji: string)
    ensures Count(reactions, emoji) >= 1 <==> emoji in Emojis(reactions)
  {
    if reactions != [] {
      var n := |reactions| - 1;
      assert reactions == reactions[..n] + [reactions[n]];
      CountPositive(reactions[..n], emoji);
      EmojisAppend(reactions[..n], reactions[n]);
    }
  }

  /** The total over some distinct emojis grows by one with a reaction carrying one of them. */
  lemma {:induction false} TotalAppend(keys: seq<string>, reactions: seq<Reaction>, r: Reaction)
    requires forall i, j :: 0 <= i < j < |keys| ==> keys[i] != keys[j]
    ensures Total(keys, reactions + [r]) == Total(keys, reactions) + (if r.emoji in keys then 1 else 0)
  {
    if keys != [] {
      var n := |keys| - 1;
      assert keys == keys[..n] + [keys[n]];
      TotalAppend(keys[..n], reactions, r);
      CountAppend(reactions, r, keys[n]);
    }
  }

  /** Adding one more emoji to the keys adds its count to the total. */
  lemma TotalExtend(keys: seq<string>, e: string, reactions: seq<Reaction>)
    ensures Total(keys + [e], reactions) == Total(keys, reactions) + Count(reactions, e)
  {
    assert (keys + [e])[..|keys|] == keys;
  }

  /** The counts of all chips add up to the number of reactions. */
  lemma {:induction false} TotalIsLength(reactions: seq<Reaction>)
    ensures Total(FirstSeen(reactions), reactions) == |reactions|
  {
    if reactions != [] {
      var n := |reactions| - 1;
      var init, r := reactions[..n], reactions[n];
      assert reactions == init + [r];
      var before := FirstSeen(init);
      TotalIsLength(init);
      TotalAppend(before, init, r);
      if r.emoji !in before {
        TotalExtend(before, r.emoji, reactions);
        CountPositive(init, r.emoji);
        CountAppend(init, r, r.emoji);
      }
    }
  }

  /** The object the `reduce` leaves behind: each reaction adds one to its emoji's entry, starting from 1. */
  function Tally(reactions: seq<Reaction>): map<string, nat> {
    if reactions == [] then map[]
    else
      var n := |reactions| - 1;
      var t, e := Tally(reactions[..n]), reactions[n].emoji;
      t[e := if e in t then t[e] + 1 else 1]
  }

  /** The tally has one entry per emoji, holding that emoji's count. */
  lemma {:induction false} TallyCounts(reactions: seq<Reaction>)
    ensures Tally(reactions).Keys == Emojis(reactions)
    ensures forall e :: e in Tally(reactions) ==> Tally(reactions)[e] == Count(reactions, e)
  {
    if reactions != [] {
      var n := |reactions| - 1;
      var init, r := reactions[..n], reactions[n];
      assert reactions == init + [r];
      TallyCounts(init);
      EmojisAppend(init, r);
      CountPositive(init, r.emoji);
      forall e | e in Tally(reactions)
        ensures Tally(reactions)[e] == Count(reactions, e)
      {
        CountAppend(init, r, e);
      }
    }
  }

  /**
   * One more reaction: a new emoji gets the entry 1 and goes to the end of the keys, a seen
   * one has its entry raised by one and leaves the keys alone.
   */
  lemma TallyStep(reactions: seq<Reaction>, i: nat)
    requires i < |reactions|
    ensures var t, e := Tally(reactions[..i]), reactions[i].emoji;
      && Tally(reactions[..i + 1]) == t[e := if e in t then t[e] + 1 else 1]
      && FirstSeen(reactions[..i + 1]) == if e in t then FirstSeen(reactions[..i]) else FirstSeen(reactions[..i]) + [e]
  {
    assert reactions[..i + 1][..i] == reactions[..i];
    TallyCounts(reactions[..i]);
  }

  /**
   * The `reduce` into a fresh object: `keys` are the object's keys in entry order and
   * `counts` its values.
   */
  method GroupReactions(reactions: seq<Reaction>) returns (keys: seq<string>, counts: map<string, nat>)
    ensures keys == FirstSeen(reactions)
    ensures counts == Tally(reactions)
    ensures counts.Keys == Emojis(reactions)
    ensures forall e :: e in counts ==> counts[e] == Count(reactions, e) >= 1
    ensures Total(keys, reactions) == |reactions|
  {
    keys, counts := [], map[];
    var i := 0;
    while i < |reactions|
      invariant 0 <= i <= |reactions|
      invariant keys == FirstSeen(reactions[..i])
      invariant counts == Tally(reactions[..i])
    {
      var r := reactions[i];
      TallyStep(reactions, i);
      if r.emoji !in counts {
        counts := counts[r.emoji := 1];
        keys := keys + [r.emoji];
      } else {
        counts := counts[r.emoji := counts[r.emoji] + 1];
      }
      i := i + 1;
    }
    assert reactions[..i] == reactions;
    TallyCounts(reactions);
    forall e | e in counts
      ensures counts[e] >= 1
    {
      CountPositive(reactions, e);
    }
    TotalIsLength(reactions);
  }

  /** One rendered chip: the emoji and, when shown, the count badge. */
  datatype Chip = Chip(emoji: string, badge: Option<nat>)

  /** The chips for the tally: a badge exactly when the count is greater than one. */
  function Chips(keys: seq<string>, counts: map<string, nat>): (r: seq<Chip>)
    requires forall k :: k in keys ==> k in counts
    ensures |r| == |keys|
    ensures forall i :: 0 <= i < |r| ==> r[i].emoji == keys[i]
    ensures forall i :: 0 <= i < |r| ==> (r[i].badge.Some? <==> counts[keys[i]] > 1)
    ensures forall i :: 0 <= i < |r| && r[i].badge.Some? ==> r[i].badge.value == counts[keys[i]]
  {
    seq(|keys|, i requires 0 <= i < |keys| => Chip(keys[i], if counts[keys[i]] > 1 then Some(counts[keys[i]]) else None))
  }

  /** A badge appears for an emoji exactly when two different reactions carry it. */
  lemma {:induction false} BadgeIffRepeated(reactions: seq<Reaction>, emoji: string)
    ensures Count(reactions, emoji) > 1 <==>
      exists i, j :: 0 <= i < j < |reactions| && reactions[i].emoji == emoji && reactions[j].emoji == emoji
  {
    if reactions != [] {
      var n := |reactions| - 1;
      var init := reactions[..n];
      BadgeIffRepeated(init, emoji);
      CountPositive(init, emoji);
      if reactions[n].emoji == emoji && Count(init, emoji) >= 1 {
        var x :| x in init && x.emoji == emoji;
        var i :| 0 <= i < n && init[i] == x;
        assert reactions[i].emoji == emoji;
      }
      if exists i, j :: 0 <= i < j < |reactions| && reactions[i].emoji == emoji && reactions[j].emoji == emoji {
        var i, j :| 0 <= i < j < |reactions| && reactions[i].emoji == emoji && reactions[j].emoji == emoji;
        if j < n {
          assert init[i].emoji == emoji && init[j].emoji == emoji;
        } else {
          assert init[i] in init;
        }
      }
    }
  }
}
