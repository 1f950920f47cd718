/**
 * The four-band index over 64-bit perceptual hashes
 * (rust/examples/similarity_engine_probe/index.rs) against a search of all hashes.
 */
module BandIndex {
  import opened Hamming

  // ---------------------------------------------------------------- postings

  /** The ids of the hashes whose band in `slot` is `value`, in order. */
  function Ids(hashes: seq<Hash>, slot: nat, value: bv16): seq<nat>
    requires slot < 4
  {
    if hashes == [] then []
    else
      var last := |hashes| - 1;
      Ids(hashes[..last], slot, value) + (if Band(hashes[last], slot) == value then [last] else [])
  }

  lemma {:induction false} IdsAre(hashes: seq<Hash>, slot: nat, value: bv16)
    requires slot < 4
    ensures forall id: nat :: id in Ids(hashes, slot, value) <==> id < |hashes| && Band(hashes[id], slot) == value
  {
    hide Band;
    if hashes != [] {
      IdsAre(hashes[..|hashes| - 1], slot, value);
    }
  }

  function Posted(postings: map<(nat, bv16), seq<nat>>, slot: nat, value: bv16): seq<nat> {
    if (slot, value) in postings then postings[(slot, value)] else []
  }

  ghost predicate Indexes(postings: map<(nat, bv16), seq<nat>>, hashes: seq<Hash>) {
    forall slot: nat, value: bv16 | slot < 4 :: Posted(postings, slot, value) == Ids(hashes, slot, value)
  }

  /** Everything up to hash `id`, and slots below `slot` of that hash too, is posted. */
  ghost predicate Posting(postings: map<(nat, bv16), seq<nat>>, hashes: seq<Hash>, id: nat, slot: nat)
    requires id < |hashes|
  {
    forall s: nat, value: bv16 | s < 4 ::
      Posted(postings, s, value) == Ids(hashes[..if s < slot then id + 1 else id], s, value)
  }

  // ---------------------------------------------------------------- candidates

  /** The hash lies within the band radius of the query in some slot. */
  ghost predicate Near(hash: Hash, query: Hash, radius: nat, slots: nat)
    requires slots <= 4
  {
    exists slot: nat | slot < slots :: BandDistance(query, hash, slot) <= radius
  }

  /** How many hashes lie within the radius in one slot. */
  function CloseIn(hashes: seq<Hash>, query: Hash, slot: nat, radius: nat): nat
    requires slot < 4
  {
    if hashes == [] then 0
    else
      CloseIn(hashes[..|hashes| - 1], query, slot, radius)
      + (if BandDistance(query, hashes[|hashes| - 1], slot) <= radius then 1 else 0)
  }

  function CloseInAll(hashes: seq<Hash>, query: Hash, slots: nat, radius: nat): nat
    requires slots <= 4
  {
    if slots == 0 then 0 else CloseInAll(hashes, query, slots - 1, radius) + CloseIn(hashes, query, slots - 1, radius)
  }

  function Lengths(hashes: seq<Hash>, slot: nat, values: seq<bv16>): nat
    requires slot < 4
  {
    if values == [] then 0
    else Lengths(hashes, slot, values[..|values| - 1]) + |Ids(hashes, slot, values[|values| - 1])|
  }

  lemma {:induction false} LengthsGrow(hashes: seq<Hash>, slot: nat, values: seq<bv16>)
    requires slot < 4 && hashes != [] && NoRepeats(values)
    ensures Lengths(hashes, slot, values) == Lengths(hashes[..|hashes| - 1], slot, values)
                                           + (if Band(hashes[|hashes| - 1], slot) in values then 1 else 0)
    decreases |values|
  {
    hide Band;
    if values != [] {
      LengthsGrow(hashes, slot, values[..|values| - 1]);
      assert values == values[..|values| - 1] + [values[|values| - 1]];
    }
  }

  lemma {:induction false} LengthsOfNothing(slot: nat, values: seq<bv16>)
    requires slot < 4
    ensures Lengths([], slot, values) == 0
    decreases |values|
  {
    if values != [] {
      LengthsOfNothing(slot, values[..|values| - 1]);
    }
  }

  /** Because neighbours do not repeat, the postings read in a slot count each close hash once. */
  lemma {:induction false} LengthsAreClose(hashes: seq<Hash>, query: Hash, slot: nat, radius: nat)
    requires slot < 4 && radius <= 2
    ensures Lengths(hashes, slot, Neighbors(Band(query, slot), radius)) == CloseIn(hashes, query, slot, radius)
  {
    var values := Neighbors(Band(query, slot), radius);
    if hashes == [] {
      LengthsOfNothing(slot, values);
    } else {
      var last := hashes[|hashes| - 1];
      NeighborsAreTheBall(Band(query, slot), radius, Band(last, slot));
      LengthsAreClose(hashes[..|hashes| - 1], query, slot, radius);
      LengthsGrow(hashes, slot, values);
      hide Neighbors, Band, Ones, Xor, Lengths;
    }
  }

  /** The ids within the band radius of the query in one of the first slots, each once. */
  ghost predicate Reached(ids: seq<nat>, hashes: seq<Hash>, query: Hash, radius: nat, slots: nat)
    requires slots <= 4
  {
    && NoRepeats(ids)
    && (forall id: nat :: id in ids <==> id < |hashes| && Near(hashes[id], query, radius, slots))
  }

  /** What `candidates` returns, independently of how it searches. */
  ghost predicate AreCandidates(candidates: seq<nat>, hashes: seq<Hash>, query: Hash, tolerance: nat) {
    Reached(candidates, hashes, query, tolerance / 4, 4)
  }

  function Matching(hashes: seq<Hash>, query: Hash, tolerance: nat, ids: seq<nat>): seq<nat>
    requires forall i | 0 <= i < |ids| :: ids[i] < |hashes|
  {
    if ids == [] then []
    else
      var id := ids[|ids| - 1];
      Matching(hashes, query, tolerance, ids[..|ids| - 1]) + (if Distance(query, hashes[id]) <= tolerance then [id] else [])
  }

  lemma {:induction false} MatchingIs(hashes: seq<Hash>, query: Hash, tolerance: nat, ids: seq<nat>)
    requires forall i | 0 <= i < |ids| :: ids[i] < |hashes|
    ensures forall id: nat :: id in Matching(hashes, query, tolerance, ids) <==>
                              id in ids && id < |hashes| && Distance(query, hashes[id]) <= tolerance
    ensures NoRepeats(ids) ==> NoRepeats(Matching(hashes, query, tolerance, ids))
    decreases |ids|
  {
    hide Distance;
    if ids != [] {
      var shorter, last := ids[..|ids| - 1], ids[|ids| - 1];
      MatchingIs(hashes, query, tolerance, shorter);
      assert ids == shorter + [last];
      if NoRepeats(ids) && last < |hashes| && Distance(query, hashes[last]) <= tolerance {
        assert last !in shorter;
        JoinNoRepeats(Matching(hashes, query, tolerance, shorter), [last]);
      }
    }
  }

  /**
   * The index agrees with brute force: filtering the candidates by distance gives every hash
   * within the tolerance, no other, and none twice.
   */
  lemma CandidatesAreComplete(candidates: seq<nat>, hashes: seq<Hash>, query: Hash, tolerance: nat)
    requires AreCandidates(candidates, hashes, query, tolerance)
    ensures forall i | 0 <= i < |candidates| :: candidates[i] < |hashes|
    ensures NoRepeats(Matching(hashes, query, tolerance, candidates))
    ensures forall id: nat :: id in Matching(hashes, query, tolerance, candidates) <==>
                              id < |hashes| && Distance(query, hashes[id]) <= tolerance
  {
    hide Distance, BandDistance;
    forall i | 0 <= i < |candidates|
      ensures candidates[i] < |hashes|
    {
      assert candidates[i] in candidates;
    }
    MatchingIs(hashes, query, tolerance, candidates);
    forall id: nat | id < |hashes| && Distance(query, hashes[id]) <= tolerance
      ensures id in candidates
    {
      SomeBandIsClose(query, hashes[id], tolerance);
    }
  }

  // ---------------------------------------------------------------- the code

  /** One turn of the outer loop of `neighbors`. */
  function Ring(value: bv16, radius: nat, first: nat): seq<bv16>
    requires first < 16
  {
    [Xor(value, Mask(first))] + (if radius >= 2 then Pairs(value, first, first + 1) else [])
  }

  lemma RingsFrom(value: bv16, radius: nat, first: nat, before: seq<bv16>)
    requires first < 16 && radius >= 1
    ensures before + Rings(value, radius, first) == before + Ring(value, radius, first) + Rings(value, radius, first + 1)
  {
    hide Mask, Xor, Pairs;
  }

  lemma RingsBounds(value: bv16, radius: nat)
    ensures Neighbors(value, radius) == [value] + Rings(value, radius, 0)
    ensures Rings(value, 0, 0) == [] && Rings(value, radius, 16) == []
  {
  }

  method NeighborsOf(value: bv16, radius: nat) returns (result: seq<bv16>)
    ensures result == Neighbors(value, radius)
  {
    hide Mask, Xor, Pairs, Rings, Neighbors;
    RingsBounds(value, radius);
    result := [value];
    if radius >= 1 {
      for first := 0 to 16
        invariant result + Rings(value, radius, first) == Neighbors(value, radius)
      {
        ghost var before := result;
        RingsFrom(value, radius, first, before);
        result := result + [Xor(value, Mask(first))];
        if radius >= 2 {
          result := PairsAfter(value, first, result);
        }
        assert result == before + Ring(value, radius, first);
      }
    }
  }

  /** The inner loop of `neighbors`. */
  method PairsAfter(value: bv16, first: nat, before: seq<bv16>) returns (result: seq<bv16>)
    requires first < 16
    ensures result == before + Pairs(value, first, first + 1)
  {
    hide Mask, Xor;
    result := before;
    for second := first + 1 to 16
      invariant result + Pairs(value, first, second) == before + Pairs(value, first, first + 1)
    {
      result := result + [Xor(Xor(value, Mask(first)), Mask(second))];
    }
  }

  class Index {
    ghost const hashes: seq<Hash>
    var postings: map<(nat, bv16), seq<nat>>
    const seen: array<bool>
    var touched: seq<nat>

    /** Between queries nothing is marked and nothing is touched. */
    ghost predicate Valid()
      reads this, seen
    {
      Indexes(postings, hashes) && touched == [] && Marked() && seen.Length == |hashes|
    }

    /** The marks are exactly the touched ids, each touched once. */
    ghost predicate Marked()
      reads this, seen
    {
      NoRepeats(touched) && forall id: nat :: id in touched <==> id < seen.Length && seen[id]
    }

    constructor (hashes: seq<Hash>)
      ensures Valid() && this.hashes == hashes && fresh(seen)
    {
      this.hashes := hashes;
      touched := [];
      seen := new bool[|hashes|](_ => false);
      postings := map[];
      new;
      hide Band;
      for id := 0 to |hashes|
        invariant touched == [] && forall i | 0 <= i < seen.Length :: !seen[i]
        invariant Indexes(postings, hashes[..id])
      {
        for slot := 0 to 4
          invariant touched == [] && forall i | 0 <= i < seen.Length :: !seen[i]
          invariant Posting(postings, hashes, id, slot)
        {
          var key := (slot, Band(hashes[id], slot));
          ghost var before := postings;
          postings := postings[key := Posted(postings, slot, Band(hashes[id], slot)) + [id]];
          PostOne(before, postings, hashes, id, slot);
        }
      }
      assert hashes[..|hashes|] == hashes;
    }

    /** Marks the ids of one posting list that are not marked yet. */
    method Visit(ids: seq<nat>)
      requires Marked() && forall i | 0 <= i < |ids| :: ids[i] < seen.Length
      modifies this`touched, seen
      ensures Marked()
      ensures forall id: nat :: id in touched <==> id in old(touched) || id in ids
    {
      for i := 0 to |ids|
        invariant Marked()
        invariant forall id: nat :: id in touched <==> id in old(touched) || id in ids[..i]
      {
        if !seen[ids[i]] {
          JoinNoRepeats(touched, [ids[i]]);
          touched := touched + [ids[i]];
          seen[ids[i]] := true;
        }
        assert ids[..i + 1] == ids[..i] + [ids[i]];
      }
    }

    /** Reads the postings of all given values in one slot. */
    method Probe(slot: nat, values: seq<bv16>) returns (examined: nat)
      requires slot < 4 && Marked() && Indexes(postings, hashes) && seen.Length == |hashes|
      modifies this`touched, seen
      ensures Marked() && examined == Lengths(hashes, slot, values)
      ensures forall id: nat :: id in touched <==> id in old(touched) || InBands(hashes, slot, values, id)
    {
      hide Band, Ids, Marked;
      examined := 0;
      for i := 0 to |values|
        invariant Marked() && examined == Lengths(hashes, slot, values[..i])
        invariant forall id: nat :: id in touched <==> id in old(touched) || InBands(hashes, slot, values[..i], id)
      {
        var read := ProbeOne(slot, values[i]);
        examined := examined + read;
        assert values[..i + 1] == values[..i] + [values[i]];
        assert values[..i + 1][..i] == values[..i];
      }
      assert values[..|values|] == values;
    }

    method ProbeOne(slot: nat, value: bv16) returns (examined: nat)
      requires slot < 4 && Marked() && Indexes(postings, hashes) && seen.Length == |hashes|
      modifies this`touched, seen
      ensures Marked() && examined == |Ids(hashes, slot, value)|
      ensures forall id: nat :: id in touched <==> id in old(touched) || (id < |hashes| && Band(hashes[id], slot) == value)
    {
      ghost var ids := Ids(hashes, slot, value);
      IdsAre(hashes, slot, value);
      assert Posted(postings, slot, value) == ids;
      assert forall k | 0 <= k < |ids| :: ids[k] in ids;
      hide Band, Ids, Indexes, Marked;
      examined := 0;
      if (slot, value) in postings {
        examined := |postings[(slot, value)]|;
        Visit(postings[(slot, value)]);
      }
    }

    /** Reads the postings of every band within the radius in one slot. */
    method ProbeSlot(query: Hash, radius: nat, slot: nat) returns (examined: nat)
      requires slot < 4 && radius <= 2 && Marked() && Indexes(postings, hashes) && seen.Length == |hashes|
      requires Reached(touched, hashes, query, radius, slot)
      modifies this`touched, seen
      ensures Marked() && Reached(touched, hashes, query, radius, slot + 1)
      ensures examined == CloseIn(hashes, query, slot, radius)
    {
      hide Band, Neighbors, Indexes, Near, CloseIn, Lengths;
      var values := NeighborsOf(Band(query, slot), radius);
      examined := Probe(slot, values);
      LengthsAreClose(hashes, query, slot, radius);
      NearOneMore(hashes, query, slot, radius);
    }

    /** The source asserts the bound on the tolerance; the scratch state is restored afterwards. */
    method Candidates(query: Hash, tolerance: nat) returns (candidates: seq<nat>, examined: nat)
      requires Valid() && tolerance <= 10
      modifies this`touched, seen
      ensures Valid()
      ensures AreCandidates(candidates, hashes, query, tolerance)
      ensures examined == CloseInAll(hashes, query, 4, tolerance / 4)
    {
      var radius := tolerance / 4;
      examined := 0;
      hide Indexes, CloseIn, Near;
      for slot := 0 to 4
        invariant Marked() && examined == CloseInAll(hashes, query, slot, radius)
        invariant Reached(touched, hashes, query, radius, slot)
      {
        var read := ProbeSlot(query, radius, slot);
        examined := examined + read;
      }
      candidates := touched;
      Restore();
    }

    method Restore()
      requires Marked()
      modifies this`touched, seen
      ensures touched == [] && Marked()
    {
      var ids := touched;
      assert forall i | 0 <= i < |ids| :: ids[i] in touched;
      touched := [];
      for i := 0 to |ids|
        invariant touched == []
        invariant forall id | 0 <= id < seen.Length && seen[id] :: id in ids[i..]
      {
        assert ids[i] in ids && ids[i..] == [ids[i]] + ids[i + 1..];
        seen[ids[i]] := false;
      }
    }
  }

  lemma IdsGrow(hashes: seq<Hash>, id: nat, slot: nat, value: bv16)
    requires id < |hashes| && slot < 4
    ensures Ids(hashes[..id + 1], slot, value)
         == Ids(hashes[..id], slot, value) + (if Band(hashes[id], slot) == value then [id] else [])
  {
    hide Band;
    assert hashes[..id + 1][..id] == hashes[..id];
  }

  lemma PostOne(before: map<(nat, bv16), seq<nat>>, after: map<(nat, bv16), seq<nat>>, hashes: seq<Hash>, id: nat, slot: nat)
    requires id < |hashes| && slot < 4 && Posting(before, hashes, id, slot)
    requires after == before[(slot, Band(hashes[id], slot)) := Posted(before, slot, Band(hashes[id], slot)) + [id]]
    ensures Posting(after, hashes, id, slot + 1)
  {
    hide Band, Ids;
    forall s: nat, value: bv16 | s < 4
      ensures Posted(after, s, value) == Ids(hashes[..if s < slot + 1 then id + 1 else id], s, value)
    {
      assert Posted(before, s, value) == Ids(hashes[..if s < slot then id + 1 else id], s, value);
      IdsGrow(hashes, id, s, value);
    }
  }

  ghost predicate InBands(hashes: seq<Hash>, slot: nat, values: seq<bv16>, id: nat)
    requires slot < 4
  {
    id < |hashes| && Band(hashes[id], slot) in values
  }

  lemma NearOneMore(hashes: seq<Hash>, query: Hash, slot: nat, radius: nat)
    requires slot < 4 && radius <= 2
    ensures forall id: nat | id < |hashes| ::
              Near(hashes[id], query, radius, slot + 1) <==>
              Near(hashes[id], query, radius, slot) || InBands(hashes, slot, Neighbors(Band(query, slot), radius), id)
  {
    forall id: nat | id < |hashes|
      ensures BandDistance(query, hashes[id], slot) <= radius <==> Band(hashes[id], slot) in Neighbors(Band(query, slot), radius)
    {
      NeighborsAreTheBall(Band(query, slot), radius, Band(hashes[id], slot));
    }
    hide BandDistance, Neighbors, Band;
  }
}
