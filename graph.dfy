/**
 * The pointer graph of keyframes and map points, as records held in arenas.
 * A global pointer is an index into the server's arenas, a client pointer an
 * index into one registered client's map; `Null`/`ClientNull` is `nullptr`.
 * `KeyFrame` and `MapPoint` are generic in the pointer type so that the same
 * record describes a client-owned node and its global copy.
 */
module Graph {

  /** A pointer to a keyframe or map point in the server's global arena. */
  datatype Ref = Null | Ref(index: nat)

  /** A pointer to a keyframe or map point in the map of registered client `client`. */
  datatype ClientRef = ClientNull | ClientRef(client: nat, index: nat)

  /** World position of a map point (a `cv::Mat` in the source, copied verbatim). */
  datatype Position = Position(x: real, y: real, z: real)

  /** ORB descriptor of a map point (a cloned `cv::Mat`), opaque bytes. */
  type Descriptor = seq<bv8>

  /** One entry of a map point's observations: keyframe and keypoint slot. */
  datatype Observation<R> = Observation(keyFrame: R, slot: nat)

  datatype MapPoint<R> = MapPoint(
    worldPos: Position,
    descriptor: Descriptor,
    refKeyFrame: R,
    observations: seq<Observation<R>>)

  datatype KeyFrame<R(==)> = KeyFrame(
    id: int,
    timestamp: real,
    sequence: int,
    detectedAprilTag: bool,
    mapPoints: seq<R>,                 // mvpMapPoints, index-aligned with the keypoints
    connectedWeights: map<R, int>,     // covisibility weights
    orderedConnected: seq<R>,          // connections ordered by weight
    orderedWeights: seq<int>,          // their weights, parallel to orderedConnected
    parent: R,                         // spanning-tree parent
    children: set<R>,                  // spanning-tree children
    loopEdges: set<R>,
    aprilTagKeyFrame: R)               // keyframe of the other sequence linked by the marker

  /** What the server reads of a registered client: its map's keyframes and map points. */
  datatype ClientMap = ClientMap(keyFrames: seq<KeyFrame<ClientRef>>, mapPoints: seq<MapPoint<ClientRef>>)

  /**
   * The keyframe copy constructor used by the server: id, timestamp and marker
   * flag are copied; slots, covisibility, spanning tree and loop edges start
   * empty and are filled by the later passes.
   */
  function CopyOf(kf: KeyFrame<ClientRef>): KeyFrame<Ref>
  {
    KeyFrame(kf.id, kf.timestamp, kf.sequence, kf.detectedAprilTag, [], map[], [], [], Null, {}, {}, Null)
  }

  /** `MapPoint::AddObservation(kf, slot)`: records the pair. */
  function AddObservation(p: MapPoint<Ref>, kf: Ref, slot: nat): MapPoint<Ref>
  {
    p.(observations := p.observations + [Observation(kf, slot)])
  }

  /** `KeyFrame::AddMapPoint(p, slot)`: sets one slot. */
  function AddMapPoint(kf: KeyFrame<Ref>, p: Ref, slot: nat): KeyFrame<Ref>
    requires slot < |kf.mapPoints|
  {
    kf.(mapPoints := kf.mapPoints[slot := p])
  }

  /** `KeyFrame::ChangeParent(parent)`: sets the spanning-tree parent. */
  function ChangeParent(kf: KeyFrame<Ref>, parent: Ref): KeyFrame<Ref>
  {
    kf.(parent := parent)
  }

  /** `std::vector::resize(n)` on a slot vector: truncates, or pads with `nullptr`. */
  function Resize(s: seq<Ref>, n: nat): (r: seq<Ref>)
    ensures |r| == n
    ensures forall i :: 0 <= i < n ==> r[i] == if i < |s| then s[i] else Null
  {
    if n <= |s| then s[..n] else s + seq(n - |s|, _ => Null)
  }

  /** Concatenation is associative. */
  lemma AppendAssociates<T>(a: seq<T>, b: seq<T>, c: seq<T>)
    ensures a + b + c == a + (b + c)
  {
  }

  /** The pointers to the first `n` global arena entries: the contents of a `Map` that holds every node created. */
  function ArenaRefs(n: nat): set<Ref>
  {
    set i: nat | i < n :: Ref(i)
  }

  /** The map holds one node per arena entry, so its size is the arena's length. */
  lemma {:induction false} ArenaRefsSize(n: nat)
    ensures |ArenaRefs(n)| == n
  {
    if n > 0 {
      ArenaRefsSize(n - 1);
      assert ArenaRefs(n) == ArenaRefs(n - 1) + {Ref(n - 1)};
      assert Ref(n - 1) !in ArenaRefs(n - 1);
    } else {
      assert ArenaRefs(0) == {};
    }
  }

  // ---------------------------------------------------------------------
  // Translation dictionaries (keyFrameDictionary, mapPointDictionary)
  // ---------------------------------------------------------------------

  /**
   * Reading a translation dictionary with `operator[]`: a registered key
   * yields its image; an unregistered one yields the default `nullptr`
   * (and `operator[]` inserts that default, see `Touch`).
   */
  function Translated(d: map<ClientRef, Ref>, k: ClientRef): Ref
  {
    if k in d then d[k] else Null
  }

  /** The dictionary after `d[k]` has been evaluated with `operator[]`. */
  function Touch(d: map<ClientRef, Ref>, k: ClientRef): (r: map<ClientRef, Ref>)
    ensures r.Keys == d.Keys + {k}
    ensures ExtendsWithNulls(d, r)
  {
    d[k := Translated(d, k)]
  }

  /**
   * The dictionary after `operator[]` has been evaluated on every key of
   * `keys`, in any order: each key it lacked now maps to `nullptr`.
   */
  function Touched(d: map<ClientRef, Ref>, keys: set<ClientRef>): map<ClientRef, Ref>
  {
    map k | k in d.Keys + keys :: Translated(d, k)
  }

  /** Touching a set of keys adds exactly those keys, as null entries, and keeps every translation. */
  lemma TouchedMeaning(d: map<ClientRef, Ref>, keys: set<ClientRef>)
    ensures Touched(d, keys).Keys == d.Keys + keys
    ensures ExtendsWithNulls(d, Touched(d, keys))
    ensures forall k :: Translated(Touched(d, keys), k) == Translated(d, k)
  {
  }

  /** Touching no key changes nothing. */
  lemma TouchedNothing(d: map<ClientRef, Ref>)
    ensures Touched(d, {}) == d
  {
  }

  /** Touching keys one at a time is touching them all at once. */
  lemma TouchedStep(d: map<ClientRef, Ref>, keys: set<ClientRef>, k: ClientRef)
    ensures Touch(Touched(d, keys), k) == Touched(d, keys + {k})
  {
  }

  /** Touching two sets of keys in turn is touching their union. */
  lemma TouchedTwice(d: map<ClientRef, Ref>, a: set<ClientRef>, b: set<ClientRef>)
    ensures Touched(Touched(d, a), b) == Touched(d, a + b)
  {
  }

  /** The pointers a sequence holds. */
  function Elements(s: seq<ClientRef>): set<ClientRef>
  {
    set k | k in s
  }

  /** One more element of a sequence adds that pointer. */
  lemma ElementsStep(s: seq<ClientRef>, i: nat)
    requires i < |s|
    ensures Elements(s[..i + 1]) == Elements(s[..i]) + {s[i]}
  {
    assert s[..i + 1] == s[..i] + [s[i]];
  }

  /** The dictionary pre-seeded with `nullptr -> nullptr`. */
  predicate Seeded(d: map<ClientRef, Ref>)
  {
    ClientNull in d && d[ClientNull] == Null
  }

  /** `after` is `before` plus only null entries for keys `before` lacked. */
  ghost predicate ExtendsWithNulls(before: map<ClientRef, Ref>, after: map<ClientRef, Ref>)
  {
    && before.Keys <= after.Keys
    && (forall k :: k in before ==> after[k] == before[k])
    && (forall k :: k in after && k !in before ==> after[k] == Null)
  }

  /**
   * Translation never fails and never changes meaning: a seeded dictionary
   * sends `nullptr` to `nullptr`, and the null entries that `operator[]`
   * inserts for unregistered keys leave every translation as it was.
   */
  lemma TranslationStable(before: map<ClientRef, Ref>, after: map<ClientRef, Ref>, k: ClientRef)
    requires ExtendsWithNulls(before, after)
    ensures Translated(after, k) == Translated(before, k)
    ensures Seeded(before) ==> Seeded(after) && Translated(after, ClientNull) == Null
  {
  }

  /** Null entries leave the translation of a whole sequence of pointers as it was. */
  lemma TranslateSeqStable(before: map<ClientRef, Ref>, after: map<ClientRef, Ref>, s: seq<ClientRef>)
    requires ExtendsWithNulls(before, after)
    ensures TranslateSeq(after, s) == TranslateSeq(before, s)
  {
  }

  /** Null entries leave the translation of a whole set of pointers as it was. */
  lemma TranslateSetStable(before: map<ClientRef, Ref>, after: map<ClientRef, Ref>, s: set<ClientRef>)
    requires ExtendsWithNulls(before, after)
    ensures TranslateSet(after, s) == TranslateSet(before, s)
  {
    forall k | k in s ensures Translated(after, k) == Translated(before, k) {
      TranslationStable(before, after, k);
    }
  }

  /** Null entries added in two steps are null entries added in one. */
  lemma ExtendsWithNullsTransitive(d0: map<ClientRef, Ref>, d1: map<ClientRef, Ref>, d2: map<ClientRef, Ref>)
    requires ExtendsWithNulls(d0, d1) && ExtendsWithNulls(d1, d2)
    ensures ExtendsWithNulls(d0, d2)
  {
  }

  /** Null entries keep a dictionary's values in range and its registrations injective. */
  lemma NullsKeepShape(before: map<ClientRef, Ref>, after: map<ClientRef, Ref>, n: nat)
    requires ExtendsWithNulls(before, after)
    requires PointsInto(before, n) && InjectiveOnNonNull(before)
    ensures PointsInto(after, n) && InjectiveOnNonNull(after)
  {
  }

  /** Every entry of `before` is still in `after`, unchanged. */
  ghost predicate Kept(before: map<ClientRef, Ref>, after: map<ClientRef, Ref>)
  {
    forall k :: k in before ==> k in after && after[k] == before[k]
  }

  /** Registrations that are kept translate a sequence of registered pointers as before. */
  lemma TranslateSeqKept(before: map<ClientRef, Ref>, after: map<ClientRef, Ref>, s: seq<ClientRef>)
    requires Kept(before, after) && forall i :: 0 <= i < |s| ==> s[i] in before
    ensures TranslateSeq(after, s) == TranslateSeq(before, s)
  {
  }

  /** Touching only registered keys changes nothing. */
  lemma TouchedRegistered(d: map<ClientRef, Ref>, keys: set<ClientRef>)
    requires keys <= d.Keys
    ensures Touched(d, keys) == d
  {
  }

  /** The pointwise translation of a sequence of client pointers. */
  function TranslateSeq(d: map<ClientRef, Ref>, s: seq<ClientRef>): (r: seq<Ref>)
    ensures |r| == |s|
    ensures forall i :: 0 <= i < |s| ==> r[i] == Translated(d, s[i])
  {
    seq(|s|, i requires 0 <= i < |s| => Translated(d, s[i]))
  }

  /** The image of a set of client pointers under translation. */
  function TranslateSet(d: map<ClientRef, Ref>, s: set<ClientRef>): set<Ref>
  {
    set k | k in s :: Translated(d, k)
  }

  /** The image holds the translation of every pointer of `s` and nothing else. */
  lemma TranslateSetMeaning(d: map<ClientRef, Ref>, s: set<ClientRef>)
    ensures forall k :: k in s ==> Translated(d, k) in TranslateSet(d, s)
    ensures forall g :: g in TranslateSet(d, s) ==> exists k :: k in s && Translated(d, k) == g
  {
  }

  /** Translating one more pointer adds its translation to the image. */
  lemma TranslateSetStep(d: map<ClientRef, Ref>, s: set<ClientRef>, k: ClientRef)
    ensures TranslateSet(d, s + {k}) == TranslateSet(d, s) + {Translated(d, k)}
  {
  }

  /** No two keys share a non-null image: each registration names its own global node. */
  ghost predicate InjectiveOnNonNull(d: map<ClientRef, Ref>)
  {
    forall k1, k2 :: k1 in d && k2 in d && k1 != k2 && d[k1].Ref? ==> d[k1] != d[k2]
  }

  /** Every value of `d` is `nullptr` or points into an arena of `n` entries. */
  ghost predicate PointsInto(d: map<ClientRef, Ref>, n: nat)
  {
    forall k :: k in d ==> d[k].Null? || d[k].index < n
  }

  /** Identity fields agree position by position: only slots, links or the marker link differ. */
  ghost predicate SameNodes(before: seq<KeyFrame<Ref>>, after: seq<KeyFrame<Ref>>)
  {
    && |before| == |after|
    && forall j :: 0 <= j < |after| ==> SameNode(before[j], after[j])
  }

  ghost predicate SameNode(a: KeyFrame<Ref>, b: KeyFrame<Ref>)
  {
    a.id == b.id && a.timestamp == b.timestamp && a.sequence == b.sequence && a.detectedAprilTag == b.detectedAprilTag
  }
}
