/**
 * `extract_percentile` of frame-processor/process_frames.py: the ids whose
 * share of all frames, as a percentage, is strictly above the threshold.
 * The threshold and the division are exact reals here, not floats.
 */
module Selector {
  import opened Wrappers
  import opened Aggregator

  /** `frame_count / total_frames * 100 > percentile` */
  predicate Exceeds(count: nat, total: int, percentile: real)
    requires total != 0
  {
    (count as real) / (total as real) * 100.0 > percentile
  }

  /** `r` is `s` with some elements left out. */
  predicate SubsequenceOf(r: seq<string>, s: seq<string>)
  {
    r == [] || (s != [] && ((r[0] == s[0] && SubsequenceOf(r[1..], s[1..])) || SubsequenceOf(r, s[1..])))
  }

  /** The comprehension over `frames_count.items()`, in iteration order. */
  function Select(keys: seq<string>, counts: map<string, nat>, total: int, percentile: real): (r: seq<string>)
    requires total != 0
    requires forall i :: 0 <= i < |keys| ==> keys[i] in counts
    ensures forall k :: k in r <==> k in keys && Exceeds(counts[k], total, percentile)
    ensures SubsequenceOf(r, keys)
    ensures Distinct(keys) ==> Distinct(r)
  {
    if keys == [] then []
    else
      var rest := Select(keys[1..], counts, total, percentile);
      if Exceeds(counts[keys[0]], total, percentile) then
        assert ([keys[0]] + rest)[1..] == rest;
        [keys[0]] + rest
      else rest
  }

  /**
   * `extract_percentile(frames_count, total_frames, percentile)`. `None`
   * models the `ZeroDivisionError` that a zero total raises as soon as there
   * is an item to test; with no items the result is empty.
   */
  function ExtractPercentile(m: OccurrenceMap, total: int, percentile: real): (r: Option<seq<string>>)
    requires m.Valid()
    ensures r.None? <==> total == 0 && m.keys != []
    ensures r.Some? ==> Distinct(r.value) && SubsequenceOf(r.value, m.keys)
    ensures r.Some? ==> forall k :: k in r.value <==> k in m.counts && total != 0 && Exceeds(m.counts[k], total, percentile)
  {
    if total == 0 then
      if m.keys == [] then Some([]) else None
    else
      Some(Select(m.keys, m.counts, total, percentile))
  }

  /** With a positive total, the test is `count * 100 > percentile * total`. */
  lemma ExceedsCrossMultiplied(count: nat, total: int, percentile: real)
    requires total > 0
    ensures Exceeds(count, total, percentile) <==> (count as real) * 100.0 > percentile * (total as real)
  {
    var t := total as real;
    var q := (count as real) / t;
    assert q * t == count as real;
    assert q * 100.0 * t == (count as real) * 100.0;
    if q * 100.0 > percentile {
      assert q * 100.0 * t > percentile * t;
    } else {
      assert q * 100.0 * t <= percentile * t;
    }
  }

  /** With a positive total, the selected ids are those whose count times 100 is above threshold times total. */
  lemma SelectionByCrossProduct(m: OccurrenceMap, total: int, percentile: real)
    requires m.Valid() && total > 0
    ensures ExtractPercentile(m, total, percentile).Some?
    ensures forall k :: k in ExtractPercentile(m, total, percentile).value <==>
      k in m.counts && (m.counts[k] as real) * 100.0 > percentile * (total as real)
  {
    forall k | k in m.counts
      ensures Exceeds(m.counts[k], total, percentile) <==> (m.counts[k] as real) * 100.0 > percentile * (total as real)
    {
      ExceedsCrossMultiplied(m.counts[k], total, percentile);
    }
  }

  /** The comparison is strict: a share exactly at the threshold is excluded. */
  lemma AtThresholdExcluded(count: nat, total: int, percentile: real)
    requires total > 0
    requires (count as real) * 100.0 == percentile * (total as real)
    ensures !Exceeds(count, total, percentile)
  {
    ExceedsCrossMultiplied(count, total, percentile);
  }

  /** Nothing is selected when no key passes. */
  lemma {:induction false} SelectNone(keys: seq<string>, counts: map<string, nat>, total: int, percentile: real)
    requires total != 0
    requires forall i :: 0 <= i < |keys| ==> keys[i] in counts && !Exceeds(counts[keys[i]], total, percentile)
    ensures Select(keys, counts, total, percentile) == []
  {
    if keys != [] {
      SelectNone(keys[1..], counts, total, percentile);
    }
  }

  /** Every key, in order, is selected when every key passes. */
  lemma {:induction false} SelectAll(keys: seq<string>, counts: map<string, nat>, total: int, percentile: real)
    requires total != 0
    requires forall i :: 0 <= i < |keys| ==> keys[i] in counts && Exceeds(counts[keys[i]], total, percentile)
    ensures Select(keys, counts, total, percentile) == keys
  {
    if keys != [] {
      SelectAll(keys[1..], counts, total, percentile);
    }
  }

  /** No id occurs more often than there are ids. */
  lemma {:induction false} OccurrencesAtMostLength(ids: seq<string>, id: string)
    ensures multiset(ids)[id] <= |ids|
  {
    if ids != [] {
      OccurrencesAtMostLength(ids[1..], id);
      assert ids == [ids[0]] + ids[1..];
      assert multiset(ids) == multiset{ids[0]} + multiset(ids[1..]);
    }
  }

  /** A share of at most the whole does not pass a threshold of 100 or more. */
  lemma WholeShareBelow(count: nat, total: int, percentile: real)
    requires 0 < total && count <= total && percentile >= 100.0
    ensures !Exceeds(count, total, percentile)
  {
    ExceedsCrossMultiplied(count, total, percentile);
    var c, t := count as real, total as real;
    assert c * 100.0 <= t * 100.0;
    assert t * 100.0 <= t * percentile;
  }

  /** A positive share passes a threshold of 0 or less. */
  lemma PositiveShareAbove(count: nat, total: int, percentile: real)
    requires 0 < total && 0 < count && percentile <= 0.0
    ensures Exceeds(count, total, percentile)
  {
    ExceedsCrossMultiplied(count, total, percentile);
    var t := total as real;
    assert percentile * t <= 0.0;
  }

  /** Over the counts of `ids` with total `|ids|`, a threshold of 100 or more selects nothing. */
  lemma HundredOrMoreSelectsNothing(ids: seq<string>, percentile: real)
    requires percentile >= 100.0
    ensures Tally(ids).Valid()
    ensures ExtractPercentile(Tally(ids), |ids|, percentile) == Some([])
  {
    TallyMeaning(ids);
    var m := Tally(ids);
    if ids != [] {
      forall i | 0 <= i < |m.keys| ensures !Exceeds(m.counts[m.keys[i]], |ids|, percentile) {
        OccurrencesAtMostLength(ids, m.keys[i]);
        WholeShareBelow(m.counts[m.keys[i]], |ids|, percentile);
      }
      SelectNone(m.keys, m.counts, |ids|, percentile);
    }
  }

  /** Over the counts of `ids` with total `|ids|`, a threshold of 0 or less selects every id, in first-occurrence order. */
  lemma NonPositiveSelectsAll(ids: seq<string>, percentile: real)
    requires ids != [] && percentile <= 0.0
    ensures Tally(ids).Valid()
    ensures ExtractPercentile(Tally(ids), |ids|, percentile) == Some(Tally(ids).keys)
  {
    TallyMeaning(ids);
    var m := Tally(ids);
    forall i | 0 <= i < |m.keys| ensures Exceeds(m.counts[m.keys[i]], |ids|, percentile) {
      PositiveShareAbove(m.counts[m.keys[i]], |ids|, percentile);
    }
    SelectAll(m.keys, m.counts, |ids|, percentile);
  }
}
