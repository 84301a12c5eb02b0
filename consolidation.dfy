/**
 * What the map-point pass does with one keyframe's slots, as functions of
 * the slots: which client points get a new global point, and which
 * observations each global point gains.
 */
module Consolidation {
  import opened Graph

  /**
   * The observations gained by the global point that stands for client point
   * `key` while the slots of global keyframe `kf` are mirrored: one
   * (keyframe, slot) pair per slot holding `key`, in slot order.
   */
  function Sightings(slots: seq<ClientRef>, key: ClientRef, kf: Ref): seq<Observation<Ref>>
  {
    if slots == [] then []
    else
      var n := |slots| - 1;
      Sightings(slots[..n], key, kf) + (if slots[n] == key then [Observation(kf, n)] else [])
  }

  /**
   * A client point seen in k slots yields exactly k observations, each
   * naming this keyframe and a slot that holds the point, and every such
   * slot is named.
   */
  lemma {:induction false} SightingsMeaning(slots: seq<ClientRef>, key: ClientRef, kf: Ref)
    ensures |Sightings(slots, key, kf)| == multiset(slots)[key]
    ensures forall o :: o in Sightings(slots, key, kf) ==> o.keyFrame == kf && o.slot < |slots| && slots[o.slot] == key
    ensures forall i :: 0 <= i < |slots| && slots[i] == key ==> Observation(kf, i) in Sightings(slots, key, kf)
  {
    if slots != [] {
      var n := |slots| - 1;
      var pre := slots[..n];
      var tail := if slots[n] == key then [Observation(kf, n)] else [];
      SightingsMeaning(pre, key, kf);
      assert Sightings(slots, key, kf) == Sightings(pre, key, kf) + tail;
      assert slots == pre + [slots[n]];
      assert multiset(slots) == multiset(pre) + multiset{slots[n]};
      forall o | o in Sightings(slots, key, kf) ensures o.keyFrame == kf && o.slot < |slots| && slots[o.slot] == key {
        if o in Sightings(pre, key, kf) {
          assert slots[o.slot] == pre[o.slot];
        }
      }
      forall i | 0 <= i < |slots| && slots[i] == key ensures Observation(kf, i) in Sightings(slots, key, kf) {
        if i < n {
          assert pre[i] == key;
        }
      }
    }
  }

  /** A point no slot holds gains no observation. */
  lemma UnseenHasNoSightings(slots: seq<ClientRef>, key: ClientRef, kf: Ref)
    requires key !in slots
    ensures Sightings(slots, key, kf) == []
  {
    SightingsMeaning(slots, key, kf);
    assert multiset(slots)[key] == 0;
  }

  /**
   * The client points named by `slots` that are not in `known`, each once,
   * in order of first appearance: the points for which the map-point pass
   * creates a global point, one each.
   */
  function NewKeys(slots: seq<ClientRef>, known: set<ClientRef>): seq<ClientRef>
  {
    if slots == [] then []
    else
      var n := |slots| - 1;
      var seen := NewKeys(slots[..n], known);
      if slots[n] in known || slots[n] in seen then seen else seen + [slots[n]]
  }

  /** Each unknown point named by the slots is listed exactly once, and nothing else is listed. */
  lemma {:induction false} NewKeysMeaning(slots: seq<ClientRef>, known: set<ClientRef>)
    ensures forall i, j :: 0 <= i < j < |NewKeys(slots, known)| ==> NewKeys(slots, known)[i] != NewKeys(slots, known)[j]
    ensures forall k :: k in NewKeys(slots, known) <==> k in slots && k !in known
  {
    if slots != [] {
      var n := |slots| - 1;
      NewKeysMeaning(slots[..n], known);
      assert slots == slots[..n] + [slots[n]];
    }
  }

  /** Extending the slots by one step extends the sightings by at most that slot. */
  lemma SightingsStep(slots: seq<ClientRef>, i: nat, key: ClientRef, kf: Ref)
    requires i < |slots|
    ensures Sightings(slots[..i + 1], key, kf)
         == Sightings(slots[..i], key, kf) + (if slots[i] == key then [Observation(kf, i)] else [])
  {
    assert slots[..i + 1][..i] == slots[..i];
  }

  /** Extending the slots by one step adds the slot's point if it is new. */
  lemma NewKeysStep(slots: seq<ClientRef>, i: nat, known: set<ClientRef>)
    requires i < |slots|
    ensures NewKeys(slots[..i + 1], known)
         == if slots[i] in known || slots[i] in NewKeys(slots[..i], known) then NewKeys(slots[..i], known)
            else NewKeys(slots[..i], known) + [slots[i]]
  {
    assert slots[..i + 1][..i] == slots[..i];
  }

  /** A key occurs among the first i + 1 slots exactly when it occurs among the first i or at slot i. */
  lemma PrefixStep(slots: seq<ClientRef>, i: nat)
    requires i < |slots|
    ensures forall k :: k in slots[..i + 1] <==> k in slots[..i] || k == slots[i]
  {
    assert slots[..i + 1] == slots[..i] + [slots[i]];
  }
  /** The slots of keyframes `kfs`, concatenated in keyframe order: what the map-point pass visits, in order. */
  function AllSlots(kfs: seq<KeyFrame<ClientRef>>): seq<ClientRef>
  {
    if kfs == [] then [] else AllSlots(kfs[..|kfs| - 1]) + kfs[|kfs| - 1].mapPoints
  }

  /**
   * The observations gained by the global point for client point `key`
   * while the map-point pass mirrors keyframes `kfs`, the i-th into global
   * keyframe `base + i`: its sightings keyframe by keyframe.
   */
  function PassSightings(kfs: seq<KeyFrame<ClientRef>>, key: ClientRef, base: nat): seq<Observation<Ref>>
  {
    if kfs == [] then []
    else
      var n := |kfs| - 1;
      PassSightings(kfs[..n], key, base) + Sightings(kfs[n].mapPoints, key, Ref(base + n))
  }

  /** Mirroring one more keyframe appends its slots and its sightings. */
  lemma PassStep(kfs: seq<KeyFrame<ClientRef>>, j: nat, base: nat)
    requires j < |kfs|
    ensures AllSlots(kfs[..j + 1]) == AllSlots(kfs[..j]) + kfs[j].mapPoints
    ensures forall key :: PassSightings(kfs[..j + 1], key, base) == PassSightings(kfs[..j], key, base) + Sightings(kfs[j].mapPoints, key, Ref(base + j))
  {
    assert kfs[..j + 1][..j] == kfs[..j];
  }

  /**
   * Over a whole pass, a client point held by k slots yields exactly k
   * observations, each naming the global keyframe of a keyframe and a slot
   * of it that holds the point, and every such slot is named.
   */
  lemma PassSightingsMeaning(kfs: seq<KeyFrame<ClientRef>>, key: ClientRef, base: nat)
    ensures |PassSightings(kfs, key, base)| == multiset(AllSlots(kfs))[key]
    ensures forall o :: o in PassSightings(kfs, key, base) ==>
              && o.keyFrame.Ref? && base <= o.keyFrame.index < base + |kfs|
              && o.slot < |kfs[o.keyFrame.index - base].mapPoints| && kfs[o.keyFrame.index - base].mapPoints[o.slot] == key
    ensures forall i, slot :: 0 <= i < |kfs| && 0 <= slot < |kfs[i].mapPoints| && kfs[i].mapPoints[slot] == key ==>
              Observation(Ref(base + i), slot) in PassSightings(kfs, key, base)
  {
    PassSightingsCount(kfs, key, base);
    PassSightingsSound(kfs, key, base);
    PassSightingsComplete(kfs, key, base);
  }

  lemma {:induction false} PassSightingsCount(kfs: seq<KeyFrame<ClientRef>>, key: ClientRef, base: nat)
    ensures |PassSightings(kfs, key, base)| == multiset(AllSlots(kfs))[key]
  {
    if kfs != [] {
      var n := |kfs| - 1;
      var pre, slots := kfs[..n], kfs[n].mapPoints;
      var earlier, seen, here := AllSlots(pre), PassSightings(pre, key, base), Sightings(slots, key, Ref(base + n));
      PassSightingsCount(pre, key, base);
      assert |here| == multiset(slots)[key] by {
        SightingsMeaning(slots, key, Ref(base + n));
      }
      assert AllSlots(kfs) == earlier + slots;
      assert PassSightings(kfs, key, base) == seen + here;
      assert multiset(earlier + slots) == multiset(earlier) + multiset(slots);
    }
  }

  lemma {:induction false} PassSightingsSound(kfs: seq<KeyFrame<ClientRef>>, key: ClientRef, base: nat)
    ensures forall o :: o in PassSightings(kfs, key, base) ==>
              && o.keyFrame.Ref? && base <= o.keyFrame.index < base + |kfs|
              && o.slot < |kfs[o.keyFrame.index - base].mapPoints| && kfs[o.keyFrame.index - base].mapPoints[o.slot] == key
  {
    if kfs != [] {
      var n := |kfs| - 1;
      var pre := kfs[..n];
      PassSightingsSound(pre, key, base);
      SightingsMeaning(kfs[n].mapPoints, key, Ref(base + n));
      forall o | o in PassSightings(kfs, key, base)
        ensures && o.keyFrame.Ref? && base <= o.keyFrame.index < base + |kfs|
                && o.slot < |kfs[o.keyFrame.index - base].mapPoints| && kfs[o.keyFrame.index - base].mapPoints[o.slot] == key
      {
        if o in PassSightings(pre, key, base) {
          assert kfs[o.keyFrame.index - base] == pre[o.keyFrame.index - base];
        }
      }
    }
  }

  lemma {:induction false} PassSightingsComplete(kfs: seq<KeyFrame<ClientRef>>, key: ClientRef, base: nat)
    ensures forall i, slot :: 0 <= i < |kfs| && 0 <= slot < |kfs[i].mapPoints| && kfs[i].mapPoints[slot] == key ==>
              Observation(Ref(base + i), slot) in PassSightings(kfs, key, base)
  {
    if kfs != [] {
      var n := |kfs| - 1;
      var pre := kfs[..n];
      var last := Sightings(kfs[n].mapPoints, key, Ref(base + n));
      PassSightingsComplete(pre, key, base);
      assert PassSightings(kfs, key, base) == PassSightings(pre, key, base) + last;
      forall i, slot | 0 <= i < |kfs| && 0 <= slot < |kfs[i].mapPoints| && kfs[i].mapPoints[slot] == key
        ensures Observation(Ref(base + i), slot) in PassSightings(kfs, key, base)
      {
        if i < n {
          assert pre[i] == kfs[i];
          assert Observation(Ref(base + i), slot) in PassSightings(pre, key, base);
        } else {
          SightingsMeaning(kfs[n].mapPoints, key, Ref(base + n));
          assert Observation(Ref(base + i), slot) in last;
        }
      }
    }
  }

  /** A point no keyframe of the pass holds gains no observation. */
  lemma {:induction false} PassUnseen(kfs: seq<KeyFrame<ClientRef>>, key: ClientRef, base: nat)
    requires key !in AllSlots(kfs)
    ensures PassSightings(kfs, key, base) == []
  {
    PassSightingsMeaning(kfs, key, base);
    assert multiset(AllSlots(kfs))[key] == 0;
  }

  /**
   * The new keys of concatenated slots are those of the first part followed
   * by those of the second part that neither `known` nor the first part
   * holds.
   */
  lemma {:induction false} NewKeysAppend(a: seq<ClientRef>, b: seq<ClientRef>, known: set<ClientRef>, known': set<ClientRef>)
    requires forall k :: k in known' <==> k in known || k in a
    ensures NewKeys(a + b, known) == NewKeys(a, known) + NewKeys(b, known')
  {
    if b == [] {
      assert a + b == a;
    } else {
      var n := |b| - 1;
      var ab, last := a + b, b[n];
      NewKeysAppend(a, b[..n], known, known');
      assert ab[..|ab| - 1] == a + b[..n] && ab[|ab| - 1] == last;
      var seen, seen' := NewKeys(a + b[..n], known), NewKeys(b[..n], known');
      NewKeysMeaning(a, known);
      assert seen == NewKeys(a, known) + seen';
      assert (last in known || last in seen) <==> (last in known' || last in seen');
    }
  }
}
