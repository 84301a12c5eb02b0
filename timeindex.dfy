/**
 * The per-sequence time index (`std::map<double, KeyFrame*>`) and the
 * correlator's lookup in it. Keys are timestamps, modelled as exact reals.
 * `lower_bound(t)` is the first key not less than `t`, `upper_bound(t)` the
 * first key greater than `t`; both therefore lie at or after `t`.
 */
module TimeIndex {
  import opened Wrappers
  import opened Graph

  /** The sequence tags of the two clients' keyframes: `clients[0]` is sequence A, `clients[1]` sequence B. */
  const SEQA: int := 0
  const SEQB: int := 1

  /** Two keyframes are linked only when their timestamps differ by less than this. */
  const TOLERANCE: real := 0.1

  /** `k` lies at or after `t` (`strict` false) or strictly after it (`strict` true). */
  predicate After(k: real, t: real, strict: bool)
  {
    if strict then t < k else t <= k
  }

  /** `k` is the least key of `keys` that lies (strictly) after `t`. */
  predicate IsFirstAfter(keys: set<real>, t: real, strict: bool, k: real)
  {
    k in keys && After(k, t, strict) && forall k' :: k' in keys && After(k', t, strict) ==> k <= k'
  }

  /** A finite set of reals with a member after `t` has a least such member. */
  lemma {:induction false} FirstAfterExists(keys: set<real>, t: real, strict: bool, w: real)
    requires w in keys && After(w, t, strict)
    ensures exists k :: IsFirstAfter(keys, t, strict, k)
    decreases keys
  {
    var smaller := set k | k in keys && After(k, t, strict) && k < w;
    if smaller == {} {
      forall k' | k' in keys && After(k', t, strict) ensures w <= k' {
        assert k' !in smaller;
      }
      assert IsFirstAfter(keys, t, strict, w);
    } else {
      var w' :| w' in smaller;
      FirstAfterExists(keys - {w}, t, strict, w');
      var k :| IsFirstAfter(keys - {w}, t, strict, k);
      assert IsFirstAfter(keys, t, strict, k);
    }
  }

  /** The first key (strictly) after `t`, or `None` for `end()`. */
  function FirstAfter(keys: set<real>, t: real, strict: bool): (r: Option<real>)
    ensures r.Some? ==> IsFirstAfter(keys, t, strict, r.value)
    ensures r.None? ==> forall k :: k in keys ==> !After(k, t, strict)
  {
    if exists w :: w in keys && After(w, t, strict) then
      var w :| w in keys && After(w, t, strict);
      FirstAfterExists(keys, t, strict, w);
      var k :| IsFirstAfter(keys, t, strict, k);
      Some(k)
    else
      None
  }

  /** `std::map::lower_bound(t)`: the first key not less than `t`. */
  function LowerBound(index: map<real, Ref>, t: real): (r: Option<real>)
    ensures r.Some? ==> r.value in index && t <= r.value
    ensures r.Some? ==> forall k :: k in index && t <= k ==> r.value <= k
    ensures r.None? ==> forall k :: k in index ==> k < t
  {
    FirstAfter(index.Keys, t, false)
  }

  /** `std::map::upper_bound(t)`: the first key greater than `t`. */
  function UpperBound(index: map<real, Ref>, t: real): (r: Option<real>)
    ensures r.Some? ==> r.value in index && t < r.value
    ensures r.Some? ==> forall k :: k in index && t < k ==> r.value <= k
    ensures r.None? ==> forall k :: k in index ==> k <= t
  {
    FirstAfter(index.Keys, t, true)
  }

  // ---------------------------------------------------------------------
  // Candidate choice of the correlator
  // ---------------------------------------------------------------------

  /**
   * Every entry of a time index points to a keyframe of `kfs` whose
   * timestamp is the entry's key (what the keyframe pass records).
   */
  ghost predicate IndexesTimes(index: map<real, Ref>, kfs: seq<KeyFrame<Ref>>)
  {
    forall k :: k in index ==> IndexedAt(index[k], kfs, k)
  }

  /** `r` points to a keyframe of `kfs` stamped `t`. */
  ghost predicate IndexedAt(r: Ref, kfs: seq<KeyFrame<Ref>>, t: real)
  {
    r.Ref? && r.index < |kfs| && kfs[r.index].timestamp == t
  }

  function Abs(x: real): real
  {
    if x < 0.0 then -x else x
  }

  /**
   * `a <= b` between two time differences, where `None` stands for the
   * infinity a difference keeps when its iterator is `end()`.
   */
  predicate DiffAtMost(a: Option<real>, b: Option<real>)
  {
    b.None? || (a.Some? && a.value <= b.value)
  }

  /**
   * The absolute difference between `t` and the timestamp of the keyframe an
   * iterator points to, or infinity (`None`) for `end()`.
   */
  function Diff(index: map<real, Ref>, kfs: seq<KeyFrame<Ref>>, it: Option<real>, t: real): Option<real>
    requires IndexesTimes(index, kfs)
    requires it.Some? ==> it.value in index
  {
    if it.None? then None
    else
      var g := index[it.value];
      assert IndexedAt(g, kfs, it.value);
      Some(Abs(kfs[g.index].timestamp - t))
  }

  /**
   * The choice between the two candidates: the `lower_bound` candidate when
   * its difference is at most the other's, else the `upper_bound` one (on
   * exact reals the source's second test, `upper < lower`, is the negation
   * of the first). The result pairs the chosen iterator with its difference.
   */
  function Closest(lowerIt: Option<real>, lowerDiff: Option<real>, upperIt: Option<real>, upperDiff: Option<real>)
    : (Option<real>, Option<real>)
  {
    if DiffAtMost(lowerDiff, upperDiff) then (lowerIt, lowerDiff) else (upperIt, upperDiff)
  }

  /**
   * The keyframe the correlator links a marker keyframe at time `t` to,
   * looking in the other sequence's index, or `None` when it stays unlinked.
   * Because both candidates lie at or after `t`, the link is the earliest
   * entry at or after `t`, made exactly when that entry is within tolerance:
   * an entry earlier than `t` is never chosen, however close.
   */
  function MarkerMatch(index: map<real, Ref>, kfs: seq<KeyFrame<Ref>>, t: real): (r: Option<Ref>)
    requires IndexesTimes(index, kfs)
    ensures r.Some? <==> exists k :: k in index && t <= k < t + TOLERANCE
    ensures r.Some? ==> r.value in index.Values && r.value.Ref? && r.value.index < |kfs|
    ensures r.Some? ==> t <= kfs[r.value.index].timestamp < t + TOLERANCE
    ensures r.Some? ==> forall k :: k in index && t <= k ==> kfs[r.value.index].timestamp <= k
  {
    var lowerIt := LowerBound(index, t);
    var upperIt := UpperBound(index, t);
    var lowerDiff := Diff(index, kfs, lowerIt, t);
    var upperDiff := Diff(index, kfs, upperIt, t);
    var (closestIt, closestDiff) := Closest(lowerIt, lowerDiff, upperIt, upperDiff);
    if closestDiff.Some? && closestDiff.value < TOLERANCE && closestIt.Some? then
      Some(index[closestIt.value])
    else
      None
  }

  /**
   * The time index after pass 1 has recorded `kfs` in order, the i-th as
   * global keyframe `base + i`: a later keyframe with the same timestamp
   * overwrites an earlier one.
   */
  function IndexAfter(index: map<real, Ref>, kfs: seq<KeyFrame<ClientRef>>, base: nat): map<real, Ref>
  {
    if kfs == [] then index
    else
      var n := |kfs| - 1;
      IndexAfter(index, kfs[..n], base)[kfs[n].timestamp := Ref(base + n)]
  }

  /** The timestamps of a sequence of client keyframes. */
  function Timestamps(kfs: seq<KeyFrame<ClientRef>>): set<real>
  {
    set i | 0 <= i < |kfs| :: kfs[i].timestamp
  }

  /** Recording one more keyframe writes its timestamp over whatever was stored there. */
  lemma IndexAfterStep(index: map<real, Ref>, kfs: seq<KeyFrame<ClientRef>>, base: nat, j: nat)
    requires j < |kfs|
    ensures IndexAfter(index, kfs[..j + 1], base) == IndexAfter(index, kfs[..j], base)[kfs[j].timestamp := Ref(base + j)]
  {
    assert kfs[..j + 1][..j] == kfs[..j];
  }

  /** The index after pass 1 holds its old keys and the timestamp of every keyframe recorded, and no other key. */
  lemma {:induction false} IndexAfterKeys(index: map<real, Ref>, kfs: seq<KeyFrame<ClientRef>>, base: nat)
    ensures IndexAfter(index, kfs, base).Keys == index.Keys + Timestamps(kfs)
  {
    if kfs != [] {
      var n := |kfs| - 1;
      IndexAfterKeys(index, kfs[..n], base);
      assert Timestamps(kfs) == Timestamps(kfs[..n]) + {kfs[n].timestamp} by {
        forall x | x in Timestamps(kfs) ensures x in Timestamps(kfs[..n]) + {kfs[n].timestamp} {
          var i :| 0 <= i < |kfs| && kfs[i].timestamp == x;
          if i < n {
            assert kfs[..n][i] == kfs[i];
          }
        }
        forall x | x in Timestamps(kfs[..n]) ensures x in Timestamps(kfs) {
          var i :| 0 <= i < n && kfs[..n][i].timestamp == x;
          assert kfs[i] == kfs[..n][i];
        }
      }
    }
  }

  /**
   * Last writer wins: a timestamp shared by no later keyframe points to the
   * keyframe recorded with it.
   */
  lemma {:induction false} IndexAfterLastWriter(index: map<real, Ref>, kfs: seq<KeyFrame<ClientRef>>, base: nat, j: nat)
    requires j < |kfs|
    requires forall i :: j < i < |kfs| ==> kfs[i].timestamp != kfs[j].timestamp
    ensures kfs[j].timestamp in IndexAfter(index, kfs, base)
    ensures IndexAfter(index, kfs, base)[kfs[j].timestamp] == Ref(base + j)
  {
    var n := |kfs| - 1;
    if j < n {
      IndexAfterLastWriter(index, kfs[..n], base, j);
    }
  }

  /** A key no recorded keyframe is stamped with keeps its entry. */
  lemma {:induction false} IndexAfterUntouched(index: map<real, Ref>, kfs: seq<KeyFrame<ClientRef>>, base: nat, t: real)
    requires t in index && forall i :: 0 <= i < |kfs| ==> kfs[i].timestamp != t
    ensures t in IndexAfter(index, kfs, base) && IndexAfter(index, kfs, base)[t] == index[t]
  {
    if kfs != [] {
      IndexAfterUntouched(index, kfs[..|kfs| - 1], base, t);
    }
  }

  /** Both time indexes point to keyframes stamped with their key and tagged with their sequence. */
  ghost predicate TimeIndexesValid(timeA: map<real, Ref>, timeB: map<real, Ref>, kfs: seq<KeyFrame<Ref>>)
  {
    && IndexesTimes(timeA, kfs) && IndexesTimes(timeB, kfs)
    && (forall t :: t in timeA ==> InSequence(timeA[t], kfs, true))
    && (forall t :: t in timeB ==> InSequence(timeB[t], kfs, false))
  }

  /** `r` points to a keyframe tagged sequence A (`inA`) or tagged otherwise. */
  ghost predicate InSequence(r: Ref, kfs: seq<KeyFrame<Ref>>, inA: bool)
  {
    r.Ref? && r.index < |kfs| && (kfs[r.index].sequence == SEQA) == inA
  }

  lemma TimeIndexesKept(timeA: map<real, Ref>, timeB: map<real, Ref>, before: seq<KeyFrame<Ref>>, after: seq<KeyFrame<Ref>>)
    requires TimeIndexesValid(timeA, timeB, before) && SameNodes(before, after)
    ensures TimeIndexesValid(timeA, timeB, after)
  {
    forall t | t in timeA ensures IndexedAt(timeA[t], after, t) && InSequence(timeA[t], after, true) {
      assert IndexedAt(timeA[t], before, t) && InSequence(timeA[t], before, true);
    }
    forall t | t in timeB ensures IndexedAt(timeB[t], after, t) && InSequence(timeB[t], after, false) {
      assert IndexedAt(timeB[t], before, t) && InSequence(timeB[t], before, false);
    }
  }

  /**
   * Recording a new global keyframe `kf`, appended to `kfs`, in the time
   * index of its sequence keeps both indexes pointing to keyframes stamped
   * with their key and tagged with their sequence.
   */
  lemma TimeIndexesExtended(timeA: map<real, Ref>, timeB: map<real, Ref>, kfs: seq<KeyFrame<Ref>>, kf: KeyFrame<Ref>)
    requires TimeIndexesValid(timeA, timeB, kfs)
    ensures kf.sequence == SEQA ==> TimeIndexesValid(timeA[kf.timestamp := Ref(|kfs|)], timeB, kfs + [kf])
    ensures kf.sequence != SEQA ==> TimeIndexesValid(timeA, timeB[kf.timestamp := Ref(|kfs|)], kfs + [kf])
  {
    var kfs' := kfs + [kf];
    var r := Ref(|kfs|);
    forall t | t in timeA ensures IndexedAt(timeA[t], kfs', t) && InSequence(timeA[t], kfs', true) {
      assert IndexedAt(timeA[t], kfs, t) && InSequence(timeA[t], kfs, true);
    }
    forall t | t in timeB ensures IndexedAt(timeB[t], kfs', t) && InSequence(timeB[t], kfs', false) {
      assert IndexedAt(timeB[t], kfs, t) && InSequence(timeB[t], kfs, false);
    }
    assert IndexedAt(r, kfs', kf.timestamp) && InSequence(r, kfs', kf.sequence == SEQA);
  }


  // ---------------------------------------------------------------------
  // The correlator's visit of one keyframe
  // ---------------------------------------------------------------------

  /** The index a marker keyframe of `sequence` is matched in: the other sequence's. */
  function OtherIndex(timeA: map<real, Ref>, timeB: map<real, Ref>, sequence: int): map<real, Ref>
  {
    if sequence == SEQA then timeB else timeA
  }

  /**
   * The keyframe the correlator links keyframe `j` of `kfs` to, or `None`
   * when it leaves the link as it was: unflagged keyframes are skipped.
   */
  function NewLink(timeA: map<real, Ref>, timeB: map<real, Ref>, kfs: seq<KeyFrame<Ref>>, j: nat): Option<Ref>
    requires IndexesTimes(timeA, kfs) && IndexesTimes(timeB, kfs) && j < |kfs|
  {
    if kfs[j].detectedAprilTag then MarkerMatch(OtherIndex(timeA, timeB, kfs[j].sequence), kfs, kfs[j].timestamp)
    else None
  }

  /** Keyframe `j` after the correlator's visit. */
  function Correlated(timeA: map<real, Ref>, timeB: map<real, Ref>, kfs: seq<KeyFrame<Ref>>, j: nat): KeyFrame<Ref>
    requires IndexesTimes(timeA, kfs) && IndexesTimes(timeB, kfs) && j < |kfs|
  {
    match NewLink(timeA, timeB, kfs, j)
    case Some(g) => kfs[j].(aprilTagKeyFrame := g)
    case None => kfs[j]
  }

  /**
   * The correlator changes nothing but the marker link; it links a
   * keyframe exactly when the keyframe carries a marker and the other
   * sequence has an entry in [t, t + 0.1), and the link then names a
   * keyframe of the other sequence, the earliest at or after `t`, less
   * than 0.1 later.
   */
  lemma CorrelatedMeaning(timeA: map<real, Ref>, timeB: map<real, Ref>, kfs: seq<KeyFrame<Ref>>, j: nat)
    requires TimeIndexesValid(timeA, timeB, kfs) && j < |kfs|
    ensures var r := Correlated(timeA, timeB, kfs, j);
      r == kfs[j].(aprilTagKeyFrame := r.aprilTagKeyFrame)
    ensures var t := kfs[j].timestamp;
      NewLink(timeA, timeB, kfs, j).Some?
      <==> kfs[j].detectedAprilTag && exists k :: k in OtherIndex(timeA, timeB, kfs[j].sequence) && t <= k < t + TOLERANCE
    ensures NewLink(timeA, timeB, kfs, j).None? ==> Correlated(timeA, timeB, kfs, j) == kfs[j]
    ensures NewLink(timeA, timeB, kfs, j).Some? ==>
      var g := NewLink(timeA, timeB, kfs, j).value;
      var t := kfs[j].timestamp;
      && Correlated(timeA, timeB, kfs, j).aprilTagKeyFrame == g
      && g.Ref? && g.index < |kfs|
      && (kfs[g.index].sequence == SEQA) != (kfs[j].sequence == SEQA)
      && t <= kfs[g.index].timestamp < t + TOLERANCE
      && forall k :: k in OtherIndex(timeA, timeB, kfs[j].sequence) && t <= k ==> kfs[g.index].timestamp <= k
  {
    var link := NewLink(timeA, timeB, kfs, j);
    if link.Some? {
      var index := OtherIndex(timeA, timeB, kfs[j].sequence);
      var t :| t in index && index[t] == link.value;
      assert InSequence(index[t], kfs, kfs[j].sequence != SEQA);
    }
  }

  /** The link the correlator leaves: the new link if it makes one, else the link held before. */
  function LinkedTo(link: Option<Ref>, prior: Ref): Ref
  {
    if link.Some? then link.value else prior
  }

  /**
   * After the correlator's visit every keyframe holds the link it makes,
   * or the one it held before; the new links are those the correlator
   * would make on the final keyframes, since it reads only timestamps and
   * sequences.
   */
  lemma CorrelatedLinks(timeA: map<real, Ref>, timeB: map<real, Ref>, kfs: seq<KeyFrame<Ref>>, kfs': seq<KeyFrame<Ref>>)
    requires TimeIndexesValid(timeA, timeB, kfs) && SameNodes(kfs, kfs')
    requires forall j :: 0 <= j < |kfs| ==> kfs'[j] == Correlated(timeA, timeB, kfs, j)
    ensures IndexesTimes(timeA, kfs') && IndexesTimes(timeB, kfs')
    ensures forall j :: 0 <= j < |kfs| ==>
              kfs'[j] == kfs[j].(aprilTagKeyFrame := LinkedTo(NewLink(timeA, timeB, kfs', j), kfs[j].aprilTagKeyFrame))
  {
    MarkerMatchStable(timeA, kfs, kfs', 0.0);
    MarkerMatchStable(timeB, kfs, kfs', 0.0);
    forall j | 0 <= j < |kfs|
      ensures kfs'[j] == kfs[j].(aprilTagKeyFrame := LinkedTo(NewLink(timeA, timeB, kfs', j), kfs[j].aprilTagKeyFrame))
    {
      NewLinkStable(timeA, timeB, kfs, kfs', j);
    }
  }

  /** The lookup reads only timestamps, so links written elsewhere do not change it. */
  lemma MarkerMatchStable(index: map<real, Ref>, kfs: seq<KeyFrame<Ref>>, kfs': seq<KeyFrame<Ref>>, t: real)
    requires IndexesTimes(index, kfs) && SameNodes(kfs, kfs')
    ensures IndexesTimes(index, kfs')
    ensures MarkerMatch(index, kfs', t) == MarkerMatch(index, kfs, t)
  {
    forall k | k in index ensures IndexedAt(index[k], kfs', k) {
      assert IndexedAt(index[k], kfs, k);
    }
    var lowerIt, upperIt := LowerBound(index, t), UpperBound(index, t);
    assert Diff(index, kfs', lowerIt, t) == Diff(index, kfs, lowerIt, t);
    assert Diff(index, kfs', upperIt, t) == Diff(index, kfs, upperIt, t);
  }

  /** A keyframe's new link is the same whatever links the other keyframes carry. */
  lemma NewLinkStable(timeA: map<real, Ref>, timeB: map<real, Ref>, kfs: seq<KeyFrame<Ref>>, kfs': seq<KeyFrame<Ref>>, j: nat)
    requires IndexesTimes(timeA, kfs) && IndexesTimes(timeB, kfs) && SameNodes(kfs, kfs') && j < |kfs|
    ensures IndexesTimes(timeA, kfs') && IndexesTimes(timeB, kfs')
    ensures NewLink(timeA, timeB, kfs', j) == NewLink(timeA, timeB, kfs, j)
  {
    MarkerMatchStable(timeA, kfs, kfs', kfs[j].timestamp);
    MarkerMatchStable(timeB, kfs, kfs', kfs[j].timestamp);
  }

  /** A sequence-B keyframe stamped `t`, for the examples below. */
  function Stamped(t: real): KeyFrame<Ref>
  {
    KeyFrame(0, t, 1, false, [], map[], [], [], Null, {}, {}, Null)
  }

  /**
   * A marker keyframe at 1.00 facing entries 0.95 and 1.08 is linked to the
   * 1.08 keyframe (difference 0.08), not to the nearer 0.95 one: the search
   * never looks earlier than the marker's own time.
   */
  lemma ExampleLinksLaterEntry()
    ensures MarkerMatch(map[0.95 := Ref(0), 1.08 := Ref(1)], [Stamped(0.95), Stamped(1.08)], 1.0) == Some(Ref(1))
  {
    var index, kfs := map[0.95 := Ref(0), 1.08 := Ref(1)], [Stamped(0.95), Stamped(1.08)];
    assert IndexedAt(index[0.95], kfs, 0.95) && IndexedAt(index[1.08], kfs, 1.08);
    assert 1.08 in index;
  }

  /**
   * A marker keyframe at 1.00 facing entries 0.80 and 1.15 stays unlinked:
   * the only candidate, 1.15, is 0.15 away.
   */
  lemma ExampleStaysUnlinked()
    ensures MarkerMatch(map[0.80 := Ref(0), 1.15 := Ref(1)], [Stamped(0.80), Stamped(1.15)], 1.0) == None
  {
    var index, kfs := map[0.80 := Ref(0), 1.15 := Ref(1)], [Stamped(0.80), Stamped(1.15)];
    assert IndexedAt(index[0.80], kfs, 0.80) && IndexedAt(index[1.15], kfs, 1.15);
  }
}
