/**
 * `process_frames` of frame-processor/process_frames.py: one pass over the
 * frames that counts how often each frame id occurs. The Python dict keeps
 * its keys in insertion order, so the map is modelled as the key order plus
 * the counts.
 */
module Aggregator {
  import opened Data

  /** No element occurs twice. */
  predicate Distinct(s: seq<string>)
  {
    forall i, j :: 0 <= i < j < |s| ==> s[i] != s[j]
  }

  /** A Python dict from frame id to count: `keys` is its iteration order. */
  datatype OccurrenceMap = OccurrenceMap(keys: seq<string>, counts: map<string, nat>)
  {
    ghost predicate Valid()
    {
      Distinct(keys) && forall k :: k in counts <==> k in keys
    }
  }

  /** The frame ids of a sequence of frames, in order. */
  function IdsOf(frames: seq<FrameRecord>): seq<string>
  {
    seq(|frames|, i requires 0 <= i < |frames| => frames[i].frameId)
  }

  /**
   * The dict after the loop of `process_frames` has seen `ids`: a present
   * key with a truthy count is incremented, any other key is set to 1 (and
   * appended to the iteration order when it was absent).
   */
  function Tally(ids: seq<string>): OccurrenceMap
  {
    if ids == [] then OccurrenceMap([], map[])
    else
      var m := Tally(ids[..|ids| - 1]);
      var id := ids[|ids| - 1];
      if id in m.counts && m.counts[id] != 0 then OccurrenceMap(m.keys, m.counts[id := m.counts[id] + 1])
      else OccurrenceMap(if id in m.counts then m.keys else m.keys + [id], m.counts[id := 1])
  }

  /**
   * The keys are exactly the ids that occur, each once, and the count of
   * each is its number of occurrences, so at least 1.
   */
  lemma {:induction false} TallyMeaning(ids: seq<string>)
    ensures Tally(ids).Valid()
    ensures forall id :: id in Tally(ids).counts <==> id in ids
    ensures forall id :: id in Tally(ids).counts ==> Tally(ids).counts[id] == multiset(ids)[id] >= 1
  {
    if ids != [] {
      var init := ids[..|ids| - 1];
      var id := ids[|ids| - 1];
      TallyMeaning(init);
      assert ids == init + [id];
      assert multiset(ids) == multiset(init) + multiset{id};
      var m := Tally(init);
      if id !in m.counts {
        assert forall k :: k in m.keys ==> k != id;
      }
    }
  }

  // ---------------------------------------------------------------------
  // The counts add up to the number of frames.
  // ---------------------------------------------------------------------

  /** The sum of the counts of `keys`; a key without a count adds nothing. */
  function SumOver(keys: seq<string>, counts: map<string, nat>): nat
  {
    if keys == [] then 0
    else
      var k := keys[|keys| - 1];
      SumOver(keys[..|keys| - 1], counts) + (if k in counts then counts[k] else 0)
  }

  lemma {:induction false} SumOverUnaffected(keys: seq<string>, counts: map<string, nat>, x: string, v: nat)
    requires x !in keys
    ensures SumOver(keys, counts[x := v]) == SumOver(keys, counts)
  {
    if keys != [] {
      SumOverUnaffected(keys[..|keys| - 1], counts, x, v);
    }
  }

  lemma {:induction false} SumOverIncrement(keys: seq<string>, counts: map<string, nat>, x: string)
    requires Distinct(keys) && x in keys && x in counts
    ensures SumOver(keys, counts[x := counts[x] + 1]) == SumOver(keys, counts) + 1
  {
    var init := keys[..|keys| - 1];
    if keys[|keys| - 1] == x {
      assert x !in init;
      SumOverUnaffected(init, counts, x, counts[x] + 1);
    } else {
      assert x in init;
      SumOverIncrement(init, counts, x);
    }
  }

  /** The counts of all keys add up to the number of ids counted. */
  lemma {:induction false} TallySum(ids: seq<string>)
    ensures SumOver(Tally(ids).keys, Tally(ids).counts) == |ids|
  {
    if ids != [] {
      var init := ids[..|ids| - 1];
      var id := ids[|ids| - 1];
      var m := Tally(init);
      TallySum(init);
      if id in m.counts {
        assert Distinct(m.keys) && id in m.keys && m.counts[id] != 0 by {
          TallyMeaning(init);
        }
        SumOverIncrement(m.keys, m.counts, id);
      } else {
        assert id !in m.keys by {
          TallyMeaning(init);
        }
        SumOverAppendNew(m.keys, m.counts, id);
      }
    }
  }

  /** Appending a new key with count 1 adds 1 to the sum. */
  lemma SumOverAppendNew(keys: seq<string>, counts: map<string, nat>, x: string)
    requires x !in keys
    ensures SumOver(keys + [x], counts[x := 1]) == SumOver(keys, counts) + 1
  {
    SumOverUnaffected(keys, counts, x, 1);
    assert (keys + [x])[..|keys|] == keys;
  }

  /** Counting does not depend on the order of the frames. */
  lemma TallyPermutation(a: seq<string>, b: seq<string>)
    requires multiset(a) == multiset(b)
    ensures Tally(a).counts == Tally(b).counts
  {
    TallyMeaning(a);
    TallyMeaning(b);
    forall id ensures id in a <==> id in b {
      assert id in a <==> id in multiset(a);
      assert id in b <==> id in multiset(b);
    }
  }

  // ---------------------------------------------------------------------
  // The iteration order is the order of first occurrence.
  // ---------------------------------------------------------------------

  /** Position of the first occurrence of `x` in `s`. */
  function FirstIndex(s: seq<string>, x: string): (k: nat)
    requires x in s
    ensures k < |s| && s[k] == x && x !in s[..k]
  {
    if s[0] == x then 0
    else
      var k := FirstIndex(s[1..], x) + 1;
      assert s[..k] == [s[0]] + s[1..][..k - 1];
      k
  }

  lemma FirstIndexExtend(s: seq<string>, y: string, x: string)
    requires x in s
    ensures FirstIndex(s + [y], x) == FirstIndex(s, x)
  {
    var k := FirstIndex(s, x);
    assert (s + [y])[..k] == s[..k];
    assert (s + [y])[k] == x;
  }

  /** Every key occurs in `ids`, and earlier keys first occur earlier. */
  predicate InFirstOccurrenceOrder(keys: seq<string>, ids: seq<string>)
  {
    (forall k :: k in keys ==> k in ids) &&
    forall i, j :: 0 <= i < j < |keys| ==> FirstIndex(ids, keys[i]) < FirstIndex(ids, keys[j])
  }

  /** The iteration order of the dict is the order in which ids first appear. */
  lemma {:induction false} TallyKeysInFirstOccurrenceOrder(ids: seq<string>)
    ensures InFirstOccurrenceOrder(Tally(ids).keys, ids)
  {
    if ids != [] {
      var init := ids[..|ids| - 1];
      var id := ids[|ids| - 1];
      assert ids == init + [id];
      TallyKeysInFirstOccurrenceOrder(init);
      TallyMeaning(init);
      if id !in init {
        assert Tally(ids).keys == Tally(init).keys + [id];
        OrderAfterNewId(Tally(init).keys, init, id);
      } else {
        assert Tally(ids).keys == Tally(init).keys;
        OrderAfterSeenId(Tally(init).keys, init, id);
      }
    }
  }

  lemma OrderAfterSeenId(keys: seq<string>, ids: seq<string>, id: string)
    requires InFirstOccurrenceOrder(keys, ids)
    ensures InFirstOccurrenceOrder(keys, ids + [id])
  {
    forall k | k in keys ensures FirstIndex(ids + [id], k) == FirstIndex(ids, k) {
      FirstIndexExtend(ids, id, k);
    }
  }

  lemma OrderAfterNewId(keys: seq<string>, ids: seq<string>, id: string)
    requires InFirstOccurrenceOrder(keys, ids) && id !in ids
    ensures InFirstOccurrenceOrder(keys + [id], ids + [id])
  {
    OrderAfterSeenId(keys, ids, id);
    var keys', ids' := keys + [id], ids + [id];
    assert FirstIndex(ids', id) == |ids|;
    forall i, j | 0 <= i < j < |keys'|
      ensures FirstIndex(ids', keys'[i]) < FirstIndex(ids', keys'[j])
    {
      assert keys'[i] == keys[i];
      if j < |keys| {
        assert keys'[j] == keys[j];
      }
    }
  }

  // ---------------------------------------------------------------------
  // The imperative form.
  // ---------------------------------------------------------------------

  /** `process_frames`: the loop that fills the dict in place. */
  method ProcessFrames(frames: seq<Frame>) returns (byFrameId: OccurrenceMap)
    ensures byFrameId == Tally(IdsOf(Values(frames)))
  {
    ghost var ids := IdsOf(Values(frames));
    var keys: seq<string> := [];
    var counts: map<string, nat> := map[];
    for i := 0 to |frames|
      invariant OccurrenceMap(keys, counts) == Tally(ids[..i])
    {
      var id := frames[i].frameId;
      assert ids[..i + 1][..i] == ids[..i] && ids[i] == id;
      if id in counts && counts[id] != 0 {
        counts := counts[id := counts[id] + 1];
      } else {
        if id !in counts {
          keys := keys + [id];
        }
        counts := counts[id := 1];
      }
    }
    assert ids[..|frames|] == ids;
    byFrameId := OccurrenceMap(keys, counts);
  }
}
