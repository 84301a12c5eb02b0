/**
 * The map-point side of the server state (arena of global map points, the
 * map's point set, `mapPointDictionary`) and the step-by-step account of the
 * map-point pass over one keyframe's slots.
 */
module PointTables {
  import opened Graph
  import opened Consolidation

  /** `k` is `nullptr` or points to an existing map point of one of `clients`. */
  predicate IsClientPointOrNull(clients: seq<ClientMap>, k: ClientRef)
  {
    k.ClientNull? || (k.client < |clients| && k.index < |clients[k.client].mapPoints|)
  }

  /** Every slot is `nullptr` or names a map point of one of `clients`. */
  predicate SlotsInClients(clients: seq<ClientMap>, slots: seq<ClientRef>)
  {
    forall i :: 0 <= i < |slots| ==> IsClientPointOrNull(clients, slots[i])
  }

  function ClientPoint(clients: seq<ClientMap>, k: ClientRef): MapPoint<ClientRef>
    requires IsClientPointOrNull(clients, k) && k.ClientRef?
  {
    clients[k.client].mapPoints[k.index]
  }

  /** The global map point created for client point `src` while mirroring keyframe `kf`, before its observation. */
  function Created(src: MapPoint<ClientRef>, kf: Ref): MapPoint<Ref>
  {
    MapPoint(src.worldPos, src.descriptor, kf, [])
  }

  /**
   * The map point tables are consistent: the map holds every created point,
   * the dictionary sends each registered client point to its own global
   * point (and only `nullptr` to `nullptr`), and `origin` names the client
   * point each global point was created for.
   */
  ghost predicate PointTablesValid(mp: seq<MapPoint<Ref>>, inMap: set<Ref>, d: map<ClientRef, Ref>, origin: seq<ClientRef>)
  {
    && inMap == ArenaRefs(|mp|)
    && PointsInto(d, |mp|) && InjectiveOnNonNull(d)
    && (forall k :: k in d && k != ClientNull ==> d[k].Ref?)
    && |origin| == |mp|
    && (forall j :: 0 <= j < |origin| ==> origin[j] != ClientNull && origin[j] in d && d[origin[j]] == Ref(j))
  }

  /** The map-point side of the server state: the dictionary, the arena, the origins and the map's point set. */
  datatype PointState = PointState(d: map<ClientRef, Ref>, mp: seq<MapPoint<Ref>>, origin: seq<ClientRef>, inMap: set<Ref>)

  ghost predicate Tables(s: PointState)
  {
    PointTablesValid(s.mp, s.inMap, s.d, s.origin)
  }

  /**
   * Mirroring slot `i` of `slots` into global keyframe `g` when its client
   * point is not registered: a new global point, observed once at (g, i),
   * is appended to the arena and the map and registered.
   */
  function CreateStep(s: PointState, clients: seq<ClientMap>, slots: seq<ClientRef>, i: nat, g: Ref): PointState
    requires i < |slots| && IsClientPointOrNull(clients, slots[i]) && slots[i].ClientRef?
  {
    var r := Ref(|s.mp|);
    PointState(s.d[slots[i] := r], s.mp + [AddObservation(Created(ClientPoint(clients, slots[i]), g), g, i)],
               s.origin + [slots[i]], s.inMap + {r})
  }

  /**
   * Mirroring slot `i` when its client point is registered: the global point
   * it translates to, if not `nullptr`, gains the observation (g, i).
   */
  function ObserveStep(s: PointState, slots: seq<ClientRef>, i: nat, g: Ref): PointState
    requires i < |slots| && slots[i] in s.d
    requires s.d[slots[i]].Ref? ==> s.d[slots[i]].index < |s.mp|
  {
    var gp := s.d[slots[i]];
    if gp.Ref? then s.(mp := s.mp[gp.index := AddObservation(s.mp[gp.index], g, i)]) else s
  }

  /**
   * The state after the map-point pass has mirrored the first `i` of `slots`
   * into global keyframe `g`, starting from state `s0`: a global point was
   * created, in order, for each new client point; existing registrations are
   * kept; every point's observations grew by exactly its sightings among
   * the mirrored slots.
   */
  ghost predicate Mirrored(clients: seq<ClientMap>, slots: seq<ClientRef>, i: nat, g: Ref, s0: PointState, s: PointState)
  {
    && i <= |slots|
    && |s0.mp| <= |s.mp| && |s.origin| == |s.mp|
    && MirroredKeys(slots, i, s0, s)
    && MirroredOld(slots, i, g, s0, s)
    && MirroredNew(clients, slots, i, g, s0, s)
  }

  /** One new registration per new client point, in order of first appearance; old ones kept. */
  ghost predicate MirroredKeys(slots: seq<ClientRef>, i: nat, s0: PointState, s: PointState)
    requires i <= |slots|
  {
    && s.origin == s0.origin + NewKeys(slots[..i], s0.d.Keys)
    && (forall k :: k in s0.d ==> k in s.d && s.d[k] == s0.d[k])
    && (forall k :: k in s.d <==> k in s0.d || k in slots[..i])
  }

  /** Points that existed before gained exactly their sightings. */
  ghost predicate MirroredOld(slots: seq<ClientRef>, i: nat, g: Ref, s0: PointState, s: PointState)
    requires i <= |slots| && |s0.mp| <= |s.mp| && |s.origin| == |s.mp|
  {
    forall j :: 0 <= j < |s0.mp| ==>
      s.mp[j] == s0.mp[j].(observations := s0.mp[j].observations + Sightings(slots[..i], s.origin[j], g))
  }

  /** Points created by the pass copy their client point and hold exactly their sightings. */
  ghost predicate MirroredNew(clients: seq<ClientMap>, slots: seq<ClientRef>, i: nat, g: Ref, s0: PointState, s: PointState)
    requires i <= |slots| && |s0.mp| <= |s.mp| && |s.origin| == |s.mp|
  {
    forall j :: |s0.mp| <= j < |s.mp| ==>
      IsClientPointOrNull(clients, s.origin[j]) && s.origin[j].ClientRef?
      && s.mp[j] == Created(ClientPoint(clients, s.origin[j]), g).(observations := Sightings(slots[..i], s.origin[j], g))
  }

  /** Nothing is mirrored yet. */
  lemma MirrorStart(clients: seq<ClientMap>, slots: seq<ClientRef>, g: Ref, s0: PointState)
    requires |s0.origin| == |s0.mp|
    ensures Mirrored(clients, slots, 0, g, s0, s0)
  {
    assert slots[..0] == [];
    assert s0.origin + NewKeys(slots[..0], s0.d.Keys) == s0.origin;
    forall j | 0 <= j < |s0.mp|
      ensures s0.mp[j] == s0.mp[j].(observations := s0.mp[j].observations + Sightings(slots[..0], s0.origin[j], g))
    {
      assert s0.mp[j].observations + [] == s0.mp[j].observations;
    }
  }

  /** Creating a point keeps the tables consistent. */
  lemma CreateKeepsTables(s: PointState, clients: seq<ClientMap>, slots: seq<ClientRef>, i: nat, g: Ref)
    requires i < |slots| && IsClientPointOrNull(clients, slots[i]) && slots[i].ClientRef? && slots[i] !in s.d
    requires Tables(s)
    ensures Tables(CreateStep(s, clients, slots, i, g))
  {
    var s' := CreateStep(s, clients, slots, i, g);
    var p := slots[i];
    assert ArenaRefs(|s'.mp|) == ArenaRefs(|s.mp|) + {Ref(|s.mp|)};
    forall k1, k2 | k1 in s'.d && k2 in s'.d && k1 != k2 && s'.d[k1].Ref? ensures s'.d[k1] != s'.d[k2] {
      if k1 != p && k2 != p {
        assert s'.d[k1] == s.d[k1] && s'.d[k2] == s.d[k2];
      }
    }
  }

  /** Creating a point for slot `i` registers it as the next new key. */
  lemma CreateKeys(s0: PointState, s: PointState, clients: seq<ClientMap>, slots: seq<ClientRef>, i: nat, g: Ref)
    requires i < |slots| && IsClientPointOrNull(clients, slots[i]) && slots[i].ClientRef? && slots[i] !in s.d
    requires MirroredKeys(slots, i, s0, s)
    ensures MirroredKeys(slots, i + 1, s0, CreateStep(s, clients, slots, i, g))
  {
    var p := slots[i];
    NewKeysStep(slots, i, s0.d.Keys);
    NewKeysMeaning(slots[..i], s0.d.Keys);
    assert p !in s0.d.Keys && p !in slots[..i];
    PrefixStep(slots, i);
  }

  /** Creating a point for slot `i` adds one observation to nothing that existed. */
  lemma CreateObservations(s0: PointState, s: PointState, clients: seq<ClientMap>, slots: seq<ClientRef>, i: nat, g: Ref)
    requires i < |slots| && IsClientPointOrNull(clients, slots[i]) && slots[i].ClientRef? && slots[i] !in s.d
    requires Tables(s) && Mirrored(clients, slots, i, g, s0, s)
    ensures var s' := CreateStep(s, clients, slots, i, g);
            |s0.mp| <= |s'.mp| && |s'.origin| == |s'.mp|
            && MirroredOld(slots, i + 1, g, s0, s') && MirroredNew(clients, slots, i + 1, g, s0, s')
  {
    var s' := CreateStep(s, clients, slots, i, g);
    var p := slots[i];
    forall key ensures Sightings(slots[..i + 1], key, g) == Sightings(slots[..i], key, g) + (if p == key then [Observation(g, i)] else []) {
      SightingsStep(slots, i, key, g);
    }
    assert p !in slots[..i];
    UnseenHasNoSightings(slots[..i], p, g);
    forall j | 0 <= j < |s.mp| ensures s.origin[j] != p {
      assert s.d[s.origin[j]] == Ref(j);
    }
    forall j | 0 <= j < |s0.mp|
      ensures s'.mp[j] == s0.mp[j].(observations := s0.mp[j].observations + Sightings(slots[..i + 1], s'.origin[j], g))
    {
      assert s'.origin[j] == s.origin[j];
    }
    forall j | |s0.mp| <= j < |s'.mp|
      ensures IsClientPointOrNull(clients, s'.origin[j]) && s'.origin[j].ClientRef?
      ensures s'.mp[j] == Created(ClientPoint(clients, s'.origin[j]), g).(observations := Sightings(slots[..i + 1], s'.origin[j], g))
    {
      if j < |s.mp| {
        assert s'.origin[j] == s.origin[j];
      }
    }
  }

  /** Observing a registered point keeps the tables consistent. */
  lemma ObserveKeepsTables(s: PointState, slots: seq<ClientRef>, i: nat, g: Ref)
    requires i < |slots| && slots[i] in s.d && Tables(s)
    ensures s.d[slots[i]].Ref? ==> s.d[slots[i]].index < |s.mp|
    ensures Tables(ObserveStep(s, slots, i, g))
  {
    var s' := ObserveStep(s, slots, i, g);
    assert |s'.mp| == |s.mp| && s'.d == s.d && s'.origin == s.origin && s'.inMap == s.inMap;
  }

  /** Observing a registered point registers nothing. */
  lemma ObserveKeys(s0: PointState, s: PointState, slots: seq<ClientRef>, i: nat, g: Ref)
    requires i < |slots| && slots[i] in s.d && PointsInto(s.d, |s.mp|)
    requires MirroredKeys(slots, i, s0, s)
    ensures MirroredKeys(slots, i + 1, s0, ObserveStep(s, slots, i, g))
  {
    var p := slots[i];
    var s' := ObserveStep(s, slots, i, g);
    assert s'.d == s.d && s'.origin == s.origin;
    NewKeysStep(slots, i, s0.d.Keys);
    NewKeysMeaning(slots[..i], s0.d.Keys);
    assert p in s0.d.Keys || p in NewKeys(slots[..i], s0.d.Keys);
    PrefixStep(slots, i);
  }

  /** The registered point of slot `i` is the global point created for that slot's client point. */
  lemma ObservedIsOrigin(s: PointState, slots: seq<ClientRef>, i: nat)
    requires i < |slots| && slots[i] in s.d && Tables(s)
    ensures forall j :: 0 <= j < |s.mp| ==> ((s.origin[j] == slots[i]) <==> (s.d[slots[i]] == Ref(j)))
  {
    forall j | 0 <= j < |s.mp| ensures (s.origin[j] == slots[i]) <==> (s.d[slots[i]] == Ref(j)) {
      assert s.d[s.origin[j]] == Ref(j);
    }
  }

  /** Observing the registered point of slot `i` adds (g, i) to that point only: points that existed before. */
  lemma ObserveOld(clients: seq<ClientMap>, s0: PointState, s: PointState, slots: seq<ClientRef>, i: nat, g: Ref)
    requires i < |slots| && slots[i] in s.d && Tables(s)
    requires Mirrored(clients, slots, i, g, s0, s)
    ensures MirroredOld(slots, i + 1, g, s0, ObserveStep(s, slots, i, g))
  {
    forall key ensures Sightings(slots[..i + 1], key, g) == Sightings(slots[..i], key, g) + (if slots[i] == key then [Observation(g, i)] else []) {
      SightingsStep(slots, i, key, g);
    }
    ObservedIsOrigin(s, slots, i);
  }

  /** Observing the registered point of slot `i` adds (g, i) to that point only: points the pass created. */
  lemma ObserveNew(clients: seq<ClientMap>, s0: PointState, s: PointState, slots: seq<ClientRef>, i: nat, g: Ref)
    requires i < |slots| && slots[i] in s.d && Tables(s)
    requires Mirrored(clients, slots, i, g, s0, s)
    ensures MirroredNew(clients, slots, i + 1, g, s0, ObserveStep(s, slots, i, g))
  {
    forall key ensures Sightings(slots[..i + 1], key, g) == Sightings(slots[..i], key, g) + (if slots[i] == key then [Observation(g, i)] else []) {
      SightingsStep(slots, i, key, g);
    }
    ObservedIsOrigin(s, slots, i);
  }

  /**
   * One turn of the map-point loop on the map-point side: slot `i` of
   * `slots` is mirrored into global keyframe `g`, creating a point for an
   * unregistered client point and observing a registered one.
   */
  function SlotStep(s: PointState, clients: seq<ClientMap>, slots: seq<ClientRef>, i: nat, g: Ref): PointState
    requires i < |slots| && IsClientPointOrNull(clients, slots[i]) && Seeded(s.d) && PointsInto(s.d, |s.mp|)
  {
    if slots[i] in s.d then ObserveStep(s, slots, i, g) else CreateStep(s, clients, slots, i, g)
  }

  /**
   * Mirroring slot `i` keeps the tables consistent, registers the slot's
   * client point without changing any registration, and extends the
   * account of the pass by that slot.
   */
  lemma MirrorSlot(clients: seq<ClientMap>, slots: seq<ClientRef>, i: nat, g: Ref, s0: PointState, s: PointState)
    requires i < |slots| && IsClientPointOrNull(clients, slots[i]) && Seeded(s.d)
    requires Tables(s) && Mirrored(clients, slots, i, g, s0, s)
    ensures var s' := SlotStep(s, clients, slots, i, g);
            && Tables(s') && Seeded(s'.d) && Mirrored(clients, slots, i + 1, g, s0, s')
            && slots[i] in s'.d && (forall k :: k in s.d ==> k in s'.d && s'.d[k] == s.d[k])
  {
    if slots[i] in s.d {
      ObserveKeepsTables(s, slots, i, g);
      ObserveKeys(s0, s, slots, i, g);
      ObserveOld(clients, s0, s, slots, i, g);
      ObserveNew(clients, s0, s, slots, i, g);
    } else {
      CreateKeepsTables(s, clients, slots, i, g);
      CreateKeys(s0, s, clients, slots, i, g);
      CreateObservations(s0, s, clients, slots, i, g);
    }
  }

  /** Once a keyframe's slots are all mirrored, each is registered and no earlier registration changed. */
  lemma MirroredRegisters(clients: seq<ClientMap>, slots: seq<ClientRef>, g: Ref, s0: PointState, s: PointState)
    requires Mirrored(clients, slots, |slots|, g, s0, s)
    ensures Kept(s0.d, s.d)
    ensures forall i :: 0 <= i < |slots| ==> slots[i] in s.d
  {
    assert slots[..|slots|] == slots;
  }

  /**
   * Null slots are inert: the pass creates exactly one global point per
   * non-null client point it had not registered, none for `nullptr`, and
   * every null slot translates to `nullptr`.
   */
  lemma NullSlotsIgnored(clients: seq<ClientMap>, slots: seq<ClientRef>, g: Ref, s0: PointState, s: PointState)
    requires Tables(s0) && Seeded(s0.d) && Mirrored(clients, slots, |slots|, g, s0, s)
    ensures ClientNull !in NewKeys(slots, s0.d.Keys)
    ensures |s.mp| == |s0.mp| + |NewKeys(slots, s0.d.Keys)|
    ensures forall i :: 0 <= i < |slots| && slots[i] == ClientNull ==> TranslateSeq(s.d, slots)[i] == Null
  {
    assert slots[..|slots|] == slots;
    NewKeysMeaning(slots, s0.d.Keys);
  }
  /**
   * The state after the map-point pass has mirrored keyframes `kfs`, the
   * i-th into global keyframe `base + i`, starting from state `s0`: a
   * global point was created, in order, for each client point the pass met
   * that was not registered; existing registrations are kept; each point
   * that existed gained exactly its sightings over the pass, keyframe by
   * keyframe; and each created point copies its client point, holds exactly
   * its sightings and refers to the keyframe of the first of them.
   */
  ghost predicate MirroredPass(clients: seq<ClientMap>, kfs: seq<KeyFrame<ClientRef>>, base: nat, s0: PointState, s: PointState)
  {
    && |s0.mp| <= |s.mp| && |s.origin| == |s.mp|
    && s.origin == s0.origin + NewKeys(AllSlots(kfs), s0.d.Keys)
    && (forall k :: k in s0.d ==> k in s.d && s.d[k] == s0.d[k])
    && (forall k :: k in s.d <==> k in s0.d || k in AllSlots(kfs))
    && (forall p :: 0 <= p < |s0.mp| ==>
          s.mp[p] == s0.mp[p].(observations := s0.mp[p].observations + PassSightings(kfs, s.origin[p], base)))
    && (forall p :: |s0.mp| <= p < |s.mp| ==> CreatedByPass(clients, kfs, base, s.origin[p], s.mp[p]))
  }

  /** `q` is the global point the pass created for client point `key`. */
  ghost predicate CreatedByPass(clients: seq<ClientMap>, kfs: seq<KeyFrame<ClientRef>>, base: nat, key: ClientRef, q: MapPoint<Ref>)
  {
    && IsClientPointOrNull(clients, key) && key.ClientRef?
    && PassSightings(kfs, key, base) != []
    && q == Created(ClientPoint(clients, key), PassSightings(kfs, key, base)[0].keyFrame).(observations := PassSightings(kfs, key, base))
  }

  /** Before the pass nothing is mirrored. */
  lemma MirroredPassStart(clients: seq<ClientMap>, kfs: seq<KeyFrame<ClientRef>>, base: nat, s0: PointState)
    requires |s0.origin| == |s0.mp|
    ensures MirroredPass(clients, kfs[..0], base, s0, s0)
  {
    assert kfs[..0] == [];
    assert s0.origin + NewKeys([], s0.d.Keys) == s0.origin;
    forall p | 0 <= p < |s0.mp|
      ensures s0.mp[p] == s0.mp[p].(observations := s0.mp[p].observations + PassSightings(kfs[..0], s0.origin[p], base))
    {
      assert s0.mp[p].observations + [] == s0.mp[p].observations;
    }
  }

  /**
   * Mirroring keyframe `j` (account `Mirrored`, from `s1` to `s2`) after
   * keyframes `0..j` (account `MirroredPass`, from `s0` to `s1`) extends the
   * account of the pass by keyframe `j`.
   */
  lemma MirroredPassStep(clients: seq<ClientMap>, kfs: seq<KeyFrame<ClientRef>>, j: nat, base: nat,
                         s0: PointState, s1: PointState, s2: PointState)
    requires j < |kfs|
    requires MirroredPass(clients, kfs[..j], base, s0, s1)
    requires Mirrored(clients, kfs[j].mapPoints, |kfs[j].mapPoints|, Ref(base + j), s1, s2)
    ensures MirroredPass(clients, kfs[..j + 1], base, s0, s2)
  {
    var slots := kfs[j].mapPoints;
    var g := Ref(base + j);
    assert slots[..|slots|] == slots;
    PassStep(kfs, j, base);
    MirroredPassKeys(clients, kfs, j, base, s0, s1, s2);
    MirroredPassOld(clients, kfs, j, base, s0, s1, s2);
    MirroredPassNew(clients, kfs, j, base, s0, s1, s2);
  }

  /** The registrations of the pass after keyframe `j`. */
  lemma MirroredPassKeys(clients: seq<ClientMap>, kfs: seq<KeyFrame<ClientRef>>, j: nat, base: nat,
                         s0: PointState, s1: PointState, s2: PointState)
    requires j < |kfs|
    requires MirroredPass(clients, kfs[..j], base, s0, s1)
    requires Mirrored(clients, kfs[j].mapPoints, |kfs[j].mapPoints|, Ref(base + j), s1, s2)
    ensures s2.origin == s0.origin + NewKeys(AllSlots(kfs[..j + 1]), s0.d.Keys)
    ensures forall k :: k in s0.d ==> k in s2.d && s2.d[k] == s0.d[k]
    ensures forall k :: k in s2.d <==> k in s0.d || k in AllSlots(kfs[..j + 1])
  {
    var slots, earlier := kfs[j].mapPoints, AllSlots(kfs[..j]);
    assert slots[..|slots|] == slots;
    PassStep(kfs, j, base);
    assert forall k :: k in s1.d.Keys <==> k in s0.d.Keys || k in earlier;
    NewKeysAppend(earlier, slots, s0.d.Keys, s1.d.Keys);
    assert s2.origin == s1.origin + NewKeys(slots, s1.d.Keys);
    AppendAssociates(s0.origin, NewKeys(earlier, s0.d.Keys), NewKeys(slots, s1.d.Keys));
    assert forall k :: k in earlier + slots <==> k in earlier || k in slots;
  }

  /** Points that existed before the pass, after keyframe `j`. */
  lemma MirroredPassOld(clients: seq<ClientMap>, kfs: seq<KeyFrame<ClientRef>>, j: nat, base: nat,
                        s0: PointState, s1: PointState, s2: PointState)
    requires j < |kfs|
    requires MirroredPass(clients, kfs[..j], base, s0, s1)
    requires Mirrored(clients, kfs[j].mapPoints, |kfs[j].mapPoints|, Ref(base + j), s1, s2)
    ensures forall p :: 0 <= p < |s0.mp| ==>
              s2.mp[p] == s0.mp[p].(observations := s0.mp[p].observations + PassSightings(kfs[..j + 1], s2.origin[p], base))
  {
    var slots := kfs[j].mapPoints;
    assert slots[..|slots|] == slots;
    PassStep(kfs, j, base);
    forall p | 0 <= p < |s0.mp|
      ensures s2.mp[p] == s0.mp[p].(observations := s0.mp[p].observations + PassSightings(kfs[..j + 1], s2.origin[p], base))
    {
      var key := s1.origin[p];
      assert s2.origin[p] == key;
      AppendAssociates(s0.mp[p].observations, PassSightings(kfs[..j], key, base), Sightings(slots, key, Ref(base + j)));
    }
  }

  /** Points the pass created, after keyframe `j`: those of earlier keyframes and those keyframe `j` created. */
  lemma MirroredPassNew(clients: seq<ClientMap>, kfs: seq<KeyFrame<ClientRef>>, j: nat, base: nat,
                        s0: PointState, s1: PointState, s2: PointState)
    requires j < |kfs|
    requires MirroredPass(clients, kfs[..j], base, s0, s1)
    requires Mirrored(clients, kfs[j].mapPoints, |kfs[j].mapPoints|, Ref(base + j), s1, s2)
    ensures forall p :: |s0.mp| <= p < |s2.mp| ==> CreatedByPass(clients, kfs[..j + 1], base, s2.origin[p], s2.mp[p])
  {
    var slots := kfs[j].mapPoints;
    assert slots[..|slots|] == slots;
    NewKeysMeaning(slots, s1.d.Keys);
    forall p | |s0.mp| <= p < |s2.mp| ensures CreatedByPass(clients, kfs[..j + 1], base, s2.origin[p], s2.mp[p]) {
      var key := s2.origin[p];
      if p < |s1.mp| {
        assert s1.origin[p] == key;
        CreatedEarlierKept(clients, kfs, j, base, key, s1.mp[p], s2.mp[p]);
      } else {
        assert key in NewKeys(slots, s1.d.Keys);
        CreatedNow(clients, kfs, j, base, key, s2.mp[p]);
      }
    }
  }

  /** A point created for an earlier keyframe stays as created, with the sightings of keyframe `j` appended. */
  lemma CreatedEarlierKept(clients: seq<ClientMap>, kfs: seq<KeyFrame<ClientRef>>, j: nat, base: nat,
                           key: ClientRef, q1: MapPoint<Ref>, q2: MapPoint<Ref>)
    requires j < |kfs| && CreatedByPass(clients, kfs[..j], base, key, q1)
    requires q2 == q1.(observations := q1.observations + Sightings(kfs[j].mapPoints, key, Ref(base + j)))
    ensures CreatedByPass(clients, kfs[..j + 1], base, key, q2)
  {
    PassStep(kfs, j, base);
  }

  /** A point created while mirroring keyframe `j` holds its sightings there, the first of which is in keyframe `j`. */
  lemma CreatedNow(clients: seq<ClientMap>, kfs: seq<KeyFrame<ClientRef>>, j: nat, base: nat, key: ClientRef, q: MapPoint<Ref>)
    requires j < |kfs| && key in kfs[j].mapPoints && key !in AllSlots(kfs[..j])
    requires IsClientPointOrNull(clients, key) && key.ClientRef?
    requires q == Created(ClientPoint(clients, key), Ref(base + j)).(observations := Sightings(kfs[j].mapPoints, key, Ref(base + j)))
    ensures CreatedByPass(clients, kfs[..j + 1], base, key, q)
  {
    var slots, g := kfs[j].mapPoints, Ref(base + j);
    PassStep(kfs, j, base);
    PassUnseen(kfs[..j], key, base);
    SightingsMeaning(slots, key, g);
    var i :| 0 <= i < |slots| && slots[i] == key;
    assert Observation(g, i) in Sightings(slots, key, g);
    assert PassSightings(kfs[..j + 1], key, base) == Sightings(slots, key, g);
  }

  /**
   * The consolidation the map-point pass achieves: after the pass, a
   * non-null client point the pass met has exactly one global point, which
   * is new exactly when the point was not registered before; that point
   * gained one observation per slot holding the client point, naming the
   * keyframe and slot, and nothing else.
   */
  lemma PassConsolidates(clients: seq<ClientMap>, kfs: seq<KeyFrame<ClientRef>>, base: nat, s0: PointState, s: PointState, key: ClientRef)
    requires Tables(s0) && Tables(s) && MirroredPass(clients, kfs, base, s0, s)
    requires key != ClientNull && key in AllSlots(kfs)
    ensures key in s.d && s.d[key].Ref? && s.d[key].index < |s.mp| && s.origin[s.d[key].index] == key
    ensures forall q :: 0 <= q < |s.mp| && s.origin[q] == key ==> q == s.d[key].index
    ensures key in s0.d <==> s.d[key].index < |s0.mp|
    ensures var p := s.d[key].index;
            && (p < |s0.mp| ==> s.mp[p].observations == s0.mp[p].observations + PassSightings(kfs, key, base))
            && (p >= |s0.mp| ==> s.mp[p].observations == PassSightings(kfs, key, base))
    ensures |PassSightings(kfs, key, base)| == multiset(AllSlots(kfs))[key]
    ensures forall o :: o in PassSightings(kfs, key, base) ==>
              && o.keyFrame.Ref? && base <= o.keyFrame.index < base + |kfs|
              && o.slot < |kfs[o.keyFrame.index - base].mapPoints| && kfs[o.keyFrame.index - base].mapPoints[o.slot] == key
    ensures forall i, slot :: 0 <= i < |kfs| && 0 <= slot < |kfs[i].mapPoints| && kfs[i].mapPoints[slot] == key ==>
              Observation(Ref(base + i), slot) in PassSightings(kfs, key, base)
  {
    var p := s.d[key].index;
    assert s.d[s.origin[p]] == Ref(p);
    forall q | 0 <= q < |s.mp| && s.origin[q] == key ensures q == p {
      assert s.d[s.origin[q]] == Ref(q);
    }
    if key in s0.d {
      assert s0.d[key].Ref?;
    }
    if p < |s0.mp| {
      assert s0.origin[p] == s.origin[p];
    }
    PassSightingsMeaning(kfs, key, base);
  }
}
