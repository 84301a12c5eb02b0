/**
 * The consolidation server: it copies the maps of two registered clients
 * (sequence A is the first client, sequence B the second) into one global
 * map through pointer-translation dictionaries, then links marker-bearing
 * keyframes across the two sequences by timestamp.
 */
module MergeServer {
  import opened Wrappers
  import opened Graph
  import opened TimeIndex
  import opened Consolidation
  import opened PointTables
  import opened Connections
  import Vocabulary

  datatype VocabularyFormat = Text | Binary

  /** The global keyframe pass 1 builds for client keyframe `src`: its copy, id shifted by `offset`, tagged `sequence`. */
  function Migrated(src: KeyFrame<ClientRef>, offset: int, sequence: int): KeyFrame<Ref>
  {
    CopyOf(src).(id := src.id + offset, sequence := sequence)
  }

  /** Pass 1's global keyframes for client keyframes `kfs`, in order. */
  function MigratedAll(kfs: seq<KeyFrame<ClientRef>>, offset: int, sequence: int): (r: seq<KeyFrame<Ref>>)
    ensures |r| == |kfs|
  {
    seq(|kfs|, i requires 0 <= i < |kfs| => Migrated(kfs[i], offset, sequence))
  }

  lemma MigratedAllStep(kfs: seq<KeyFrame<ClientRef>>, offset: int, sequence: int, j: nat)
    requires j < |kfs|
    ensures MigratedAll(kfs[..j + 1], offset, sequence) == MigratedAll(kfs[..j], offset, sequence) + [Migrated(kfs[j], offset, sequence)]
  {
  }

  /** The pointers to the first `n` keyframes of client `c`. */
  function ClientKeys(c: nat, n: nat): set<ClientRef>
  {
    set j: nat | j < n :: ClientRef(c, j)
  }

  /** `k` points to one of the first `n` keyframes of client `c`. */
  predicate OfClient(k: ClientRef, c: nat, n: nat)
  {
    k.ClientRef? && k.client == c && k.index < n
  }

  /**
   * The keyframe dictionary after pass 1 has registered the first `n`
   * keyframes of client `c` as global keyframes `base`, `base + 1`, ...:
   * those keys are (over)written, every other entry is kept.
   */
  function Registrations(d: map<ClientRef, Ref>, c: nat, n: nat, base: nat): map<ClientRef, Ref>
  {
    map k | k in d.Keys + ClientKeys(c, n) :: if OfClient(k, c, n) then Ref(base + k.index) else d[k]
  }

  lemma RegistrationsStep(d: map<ClientRef, Ref>, c: nat, j: nat, base: nat)
    ensures Registrations(d, c, j + 1, base) == Registrations(d, c, j, base)[ClientRef(c, j) := Ref(base + j)]
  {
    assert ClientKeys(c, j + 1) == ClientKeys(c, j) + {ClientRef(c, j)};
  }

  /** Keyframe `j` of client `c` is registered as global keyframe `base + j`, for every `j < n`. */
  ghost predicate RegisteredAt(d: map<ClientRef, Ref>, c: nat, n: nat, base: nat)
  {
    forall j :: 0 <= j < n ==> ClientRef(c, j) in d && d[ClientRef(c, j)] == Ref(base + j)
  }

  /** Pass 1 registers each keyframe of the client as its own global keyframe and keeps the other entries. */
  lemma RegistrationsMeaning(d: map<ClientRef, Ref>, c: nat, n: nat, base: nat)
    ensures RegisteredAt(Registrations(d, c, n, base), c, n, base)
    ensures forall k :: k in d && !OfClient(k, c, n) ==> k in Registrations(d, c, n, base) && Registrations(d, c, n, base)[k] == d[k]
  {
    forall j | 0 <= j < n ensures ClientRef(c, j) in Registrations(d, c, n, base) {
      assert ClientRef(c, j) in ClientKeys(c, n);
    }
  }

  /** A sequence that agrees with `prefix` index by index begins with it. */
  lemma PrefixOf(s: seq<KeyFrame<Ref>>, prefix: seq<KeyFrame<Ref>>)
    requires |prefix| <= |s| && forall g :: 0 <= g < |prefix| ==> s[g] == prefix[g]
    ensures s[..|prefix|] == prefix
  {
  }

  /**
   * The global keyframes after pass 3 has copied the links of the first `j`
   * keyframes of `keyframes`, the i-th onto global keyframe `base + i`,
   * translating through `d`.
   */
  function ConnectedThrough(kfs: seq<KeyFrame<Ref>>, keyframes: seq<KeyFrame<ClientRef>>, orders: seq<seq<ClientRef>>,
                            d: map<ClientRef, Ref>, base: nat, j: nat): (r: seq<KeyFrame<Ref>>)
    requires j <= |keyframes| <= |orders| && base + |keyframes| <= |kfs|
    ensures |r| == |kfs|
  {
    if j == 0 then kfs
    else ConnectedThrough(kfs, keyframes, orders, d, base, j - 1)[base + j - 1 :=
           Connected(kfs[base + j - 1], keyframes[j - 1], orders[j - 1], d)]
  }

  /** The first `j` keyframes of the range carry their copied links and every other keyframe is as it was. */
  lemma {:induction false} ConnectedThroughMeaning(kfs: seq<KeyFrame<Ref>>, keyframes: seq<KeyFrame<ClientRef>>,
                                                   orders: seq<seq<ClientRef>>, d: map<ClientRef, Ref>, base: nat, j: nat)
    requires j <= |keyframes| <= |orders| && base + |keyframes| <= |kfs|
    ensures forall g :: 0 <= g < |kfs| && !(base <= g < base + j) ==> ConnectedThrough(kfs, keyframes, orders, d, base, j)[g] == kfs[g]
    ensures forall g :: base <= g < base + j ==>
              ConnectedThrough(kfs, keyframes, orders, d, base, j)[g] == Connected(kfs[g], keyframes[g - base], orders[g - base], d)
  {
    if j > 0 {
      ConnectedThroughMeaning(kfs, keyframes, orders, d, base, j - 1);
    }
  }

  /**
   * Pass 3's dictionary after the `j`-th keyframe: touching the pointers
   * that keyframe references adds them to those of the earlier keyframes,
   * and the registrations of pass 1 stay.
   */
  lemma ConnectionStepDictionary(d0: map<ClientRef, Ref>, keyframes: seq<KeyFrame<ClientRef>>, j: nat, c: nat, base: nat)
    requires j < |keyframes|
    requires RegisteredAt(Touched(d0, ReferencedAll(keyframes[..j])), c, |keyframes|, base)
    ensures Touched(Touched(d0, ReferencedAll(keyframes[..j])), Referenced(keyframes[j])) == Touched(d0, ReferencedAll(keyframes[..j + 1]))
    ensures RegisteredAt(Touched(d0, ReferencedAll(keyframes[..j + 1])), c, |keyframes|, base)
  {
    var d := Touched(d0, ReferencedAll(keyframes[..j]));
    TouchedMeaning(d, Referenced(keyframes[j]));
    TouchedTwice(d0, ReferencedAll(keyframes[..j]), Referenced(keyframes[j]));
    ReferencedAllStep(keyframes, j);
  }

  /** Every slot of every keyframe of client `c` is `nullptr` or one of the clients' map points. */
  ghost predicate SlotsWellFormed(clients: seq<ClientMap>, c: nat)
    requires c < |clients|
  {
    forall j :: 0 <= j < |clients[c].keyFrames| ==> SlotsInClients(clients, clients[c].keyFrames[j].mapPoints)
  }

  /** `orders[j]` lists the weight keys of keyframe `j` of client `c`: the address order its `std::map` visits them in. */
  ghost predicate WeightOrders(clients: seq<ClientMap>, c: nat, orders: seq<seq<ClientRef>>)
    requires c < |clients|
  {
    OrdersEnumerate(clients[c].keyFrames, orders)
  }

  /** `orders[j]` lists the weight keys of `kfs[j]`, each once. */
  ghost predicate OrdersEnumerate(kfs: seq<KeyFrame<ClientRef>>, orders: seq<seq<ClientRef>>)
  {
    && |orders| == |kfs|
    && forall j :: 0 <= j < |orders| ==> Enumerates(orders[j], kfs[j].connectedWeights.Keys)
  }

  /** Every pointer `src` references is registered to a global keyframe. */
  ghost predicate LinksRegistered(src: KeyFrame<ClientRef>, kfd: map<ClientRef, Ref>)
  {
    forall k :: k in Referenced(src) ==> k in kfd && kfd[k].Ref?
  }

  /**
   * The global keyframe the three passes make of client keyframe `src`: the
   * migrated copy (pass 1), with its slots translated through `mpd`
   * (pass 2) and its connectivity translated through `kfd`, the weights
   * visited in `order` (pass 3).
   */
  function MergedKeyFrame(src: KeyFrame<ClientRef>, offset: int, sequence: int, mpd: map<ClientRef, Ref>,
                          kfd: map<ClientRef, Ref>, order: seq<ClientRef>): KeyFrame<Ref>
  {
    Connected(Migrated(src, offset, sequence).(mapPoints := TranslateSeq(mpd, src.mapPoints)), src, order, kfd)
  }

  /**
   * The keyframes of client `c` have been merged as global keyframes
   * `base`, `base + 1`, ...: each is registered as the translation of its
   * client keyframe, and each is, apart from its marker link, the merged
   * keyframe of its client keyframe, its slots translated through `mpd`,
   * where every slot is registered, and its links through `passDictionary`,
   * the keyframe dictionary pass 3 read, its weights visited in `orders`;
   * when the client's links stay within its own keyframes, no copied link is
   * `nullptr` and a parent exists exactly when the client keyframe has one.
   */
  ghost predicate Merged(clients: seq<ClientMap>, kfs: seq<KeyFrame<Ref>>, kfd: map<ClientRef, Ref>,
                         mpd: map<ClientRef, Ref>, c: nat, base: nat, offset: int, sequence: int,
                         passDictionary: map<ClientRef, Ref>, orders: seq<seq<ClientRef>>)
    requires c < |clients|
  {
    var src := clients[c].keyFrames;
    && base + |src| <= |kfs| && |orders| == |src|
    && RegisteredAt(kfd, c, |src|, base)
    && (forall j, i :: 0 <= j < |src| && 0 <= i < |src[j].mapPoints| ==> src[j].mapPoints[i] in mpd)
    && (forall j :: 0 <= j < |src| ==>
          kfs[base + j] == MergedKeyFrame(src[j], offset, sequence, mpd, passDictionary, orders[j])
                             .(aprilTagKeyFrame := kfs[base + j].aprilTagKeyFrame))
    && (ClosedLinks(clients, c) ==> LinksCopied(src, kfs, base))
  }

  /** No link of the global keyframes of `src` is `nullptr`, and each has a parent exactly when its client keyframe has one. */
  ghost predicate LinksCopied(src: seq<KeyFrame<ClientRef>>, kfs: seq<KeyFrame<Ref>>, base: nat)
    requires base + |src| <= |kfs|
  {
    forall g :: base <= g < base + |src| ==>
      LinksNonNull(kfs[g]) && (kfs[g].parent.Ref? <==> src[g - base].parent != ClientNull)
  }

  /** Links stay copied while the keyframes change only in their marker links. */
  lemma LinksCopiedKept(src: seq<KeyFrame<ClientRef>>, kfs: seq<KeyFrame<Ref>>, kfs': seq<KeyFrame<Ref>>, base: nat)
    requires base + |src| <= |kfs| <= |kfs'| && LinksCopied(src, kfs, base)
    requires forall g :: base <= g < base + |src| ==> kfs'[g] == kfs[g].(aprilTagKeyFrame := kfs'[g].aprilTagKeyFrame)
    ensures LinksCopied(src, kfs', base)
  {
    forall g | base <= g < base + |src|
      ensures LinksNonNull(kfs'[g]) && (kfs'[g].parent.Ref? <==> src[g - base].parent != ClientNull)
    {
      assert LinksNonNull(kfs[g]);
    }
  }

  /**
   * A merged client stays merged while its global keyframes change only in
   * their marker links, its registrations stay and map-point registrations
   * are only added.
   */
  lemma MergedKept(clients: seq<ClientMap>, kfs: seq<KeyFrame<Ref>>, kfd: map<ClientRef, Ref>, mpd: map<ClientRef, Ref>,
                   kfs': seq<KeyFrame<Ref>>, kfd': map<ClientRef, Ref>, mpd': map<ClientRef, Ref>,
                   c: nat, base: nat, offset: int, sequence: int, passDictionary: map<ClientRef, Ref>, orders: seq<seq<ClientRef>>)
    requires c < |clients| && Merged(clients, kfs, kfd, mpd, c, base, offset, sequence, passDictionary, orders)
    requires |kfs| <= |kfs'|
    requires forall g :: base <= g < base + |clients[c].keyFrames| ==> kfs'[g] == kfs[g].(aprilTagKeyFrame := kfs'[g].aprilTagKeyFrame)
    requires RegisteredAt(kfd', c, |clients[c].keyFrames|, base)
    requires Kept(mpd, mpd')
    ensures Merged(clients, kfs', kfd', mpd', c, base, offset, sequence, passDictionary, orders)
  {
    var src := clients[c].keyFrames;
    forall j | 0 <= j < |src|
      ensures kfs'[base + j] == MergedKeyFrame(src[j], offset, sequence, mpd', passDictionary, orders[j])
                                  .(aprilTagKeyFrame := kfs'[base + j].aprilTagKeyFrame)
    {
      assert kfs'[base + j] == kfs[base + j].(aprilTagKeyFrame := kfs'[base + j].aprilTagKeyFrame);
      TranslateSeqKept(mpd, mpd', src[j].mapPoints);
    }
    if ClosedLinks(clients, c) {
      LinksCopiedKept(src, kfs, kfs', base);
    }
  }

  /**
   * Both merges survive a pass that changes only the marker links of the
   * keyframes, as the correlator does.
   */
  lemma MergesRelinked(clients: seq<ClientMap>, kfs: seq<KeyFrame<Ref>>, kfs': seq<KeyFrame<Ref>>,
                       kfd: map<ClientRef, Ref>, mpd: map<ClientRef, Ref>, baseA: nat, baseB: nat,
                       dictionaryA: map<ClientRef, Ref>, dictionaryB: map<ClientRef, Ref>,
                       ordersA: seq<seq<ClientRef>>, ordersB: seq<seq<ClientRef>>)
    requires |clients| >= 2
    requires Merged(clients, kfs, kfd, mpd, 0, baseA, 0, SEQA, dictionaryA, ordersA)
    requires Merged(clients, kfs, kfd, mpd, 1, baseB, baseB, SEQB, dictionaryB, ordersB)
    requires |kfs| == |kfs'| && forall g :: 0 <= g < |kfs| ==> kfs'[g] == kfs[g].(aprilTagKeyFrame := kfs'[g].aprilTagKeyFrame)
    ensures Merged(clients, kfs', kfd, mpd, 0, baseA, 0, SEQA, dictionaryA, ordersA)
    ensures Merged(clients, kfs', kfd, mpd, 1, baseB, baseB, SEQB, dictionaryB, ordersB)
  {
    MergedKept(clients, kfs, kfd, mpd, kfs', kfd, mpd, 0, baseA, 0, SEQA, dictionaryA, ordersA);
    MergedKept(clients, kfs, kfd, mpd, kfs', kfd, mpd, 1, baseB, baseB, SEQB, dictionaryB, ordersB);
  }

  /**
   * One keyframe through the three passes: its identity is that of the
   * migrated keyframe, its slots those pass 2 gave it, and it has no marker
   * link; when every pointer it references is registered to a keyframe, no
   * copied link is `nullptr` and it has a parent exactly when `src` does.
   */
  lemma MergedKeyFrameMeaning(src: KeyFrame<ClientRef>, offset: int, sequence: int, mpd: map<ClientRef, Ref>,
                              kfd: map<ClientRef, Ref>, order: seq<ClientRef>)
    requires forall i :: 0 <= i < |order| ==> order[i] in src.connectedWeights
    ensures var r := MergedKeyFrame(src, offset, sequence, mpd, kfd, order);
            && SameNode(r, Migrated(src, offset, sequence))
            && r.mapPoints == TranslateSeq(mpd, src.mapPoints) && r.aprilTagKeyFrame == Null
            && (LinksRegistered(src, kfd) ==> LinksNonNull(r) && (r.parent.Ref? <==> src.parent != ClientNull))
  {
    var kf2 := Migrated(src, offset, sequence).(mapPoints := TranslateSeq(mpd, src.mapPoints));
    if LinksRegistered(src, kfd) {
      RegisteredLinksNonNull(kf2, src, order, kfd);
    }
  }

  /** With closed links, every pointer a keyframe of the client references is registered to a global keyframe. */
  lemma ClosedRegistered(clients: seq<ClientMap>, c: nat, kfd: map<ClientRef, Ref>, base: nat)
    requires c < |clients| && ClosedLinks(clients, c)
    requires RegisteredAt(kfd, c, |clients[c].keyFrames|, base)
    ensures forall j :: 0 <= j < |clients[c].keyFrames| ==> LinksRegistered(clients[c].keyFrames[j], kfd)
  {
    forall j, k | 0 <= j < |clients[c].keyFrames| && k in Referenced(clients[c].keyFrames[j]) ensures k in kfd && kfd[k].Ref? {
      assert k.ClientRef? && k.client == c && k.index < |clients[c].keyFrames|;
    }
  }

  /**
   * After the three passes the keyframes of `src`, appended after `prefix`,
   * are their merged keyframes, with no marker link; when every pointer a
   * keyframe references is registered to a global keyframe, its copied
   * links are not `nullptr` and it has a parent exactly when its client
   * keyframe has one.
   */
  lemma PassesMergeRange(src: seq<KeyFrame<ClientRef>>, kfs1: seq<KeyFrame<Ref>>, kfs2: seq<KeyFrame<Ref>>, kfs3: seq<KeyFrame<Ref>>,
                         kfd1: map<ClientRef, Ref>, mpd: map<ClientRef, Ref>, base: nat, offset: int, sequence: int,
                         orders: seq<seq<ClientRef>>)
    requires base + |src| == |kfs1| && kfs1[base..] == MigratedAll(src, offset, sequence)
    requires |kfs2| == |kfs3| == |kfs1| && OrdersEnumerate(src, orders)
    requires forall g :: base <= g < base + |src| ==>
               kfs2[g] == kfs1[g].(mapPoints := TranslateSeq(mpd, src[g - base].mapPoints))
    requires forall g :: base <= g < base + |src| ==>
               kfs3[g] == Connected(kfs2[g], src[g - base], orders[g - base], kfd1)
    ensures forall g :: base <= g < base + |src| ==>
              && kfs3[g] == MergedKeyFrame(src[g - base], offset, sequence, mpd, kfd1, orders[g - base])
              && kfs3[g].aprilTagKeyFrame == Null
              && (LinksRegistered(src[g - base], kfd1) ==> LinksNonNull(kfs3[g]) && (kfs3[g].parent.Ref? <==> src[g - base].parent != ClientNull))
  {
    forall g | base <= g < base + |src|
      ensures kfs3[g] == MergedKeyFrame(src[g - base], offset, sequence, mpd, kfd1, orders[g - base])
      ensures kfs3[g].aprilTagKeyFrame == Null
      ensures LinksRegistered(src[g - base], kfd1) ==> LinksNonNull(kfs3[g]) && (kfs3[g].parent.Ref? <==> src[g - base].parent != ClientNull)
    {
      var j := g - base;
      assert kfs1[g] == kfs1[base..][j] == Migrated(src[j], offset, sequence);
      MergedKeyFrameMeaning(src[j], offset, sequence, mpd, kfd1, orders[j]);
    }
  }

  /**
   * The three passes over one client together merge it: pass 1 appends the
   * migrated keyframes after `prefix` and registers them, pass 2 gives them
   * the translated slots, pass 3 the connectivity translated by the
   * dictionary pass 1 left. The merged keyframes carry no marker link yet.
   */
  lemma PassesMerge(clients: seq<ClientMap>, c: nat, prefix: seq<KeyFrame<Ref>>, kfs1: seq<KeyFrame<Ref>>, kfs2: seq<KeyFrame<Ref>>,
                    kfs3: seq<KeyFrame<Ref>>, kfd1: map<ClientRef, Ref>, mpd: map<ClientRef, Ref>, base: nat,
                    offset: int, sequence: int, orders: seq<seq<ClientRef>>)
    requires c < |clients| && WeightOrders(clients, c, orders)
    requires kfs1 == prefix + MigratedAll(clients[c].keyFrames, offset, sequence) && base == |prefix|
    requires |kfs2| == |kfs3| == |kfs1|
    requires RegisteredAt(kfd1, c, |clients[c].keyFrames|, base)
    requires forall j, i :: 0 <= j < |clients[c].keyFrames| && 0 <= i < |clients[c].keyFrames[j].mapPoints| ==>
               clients[c].keyFrames[j].mapPoints[i] in mpd
    requires forall g :: base <= g < base + |clients[c].keyFrames| ==>
               kfs2[g] == kfs1[g].(mapPoints := TranslateSeq(mpd, clients[c].keyFrames[g - base].mapPoints))
    requires forall g :: base <= g < base + |clients[c].keyFrames| ==>
               kfs3[g] == Connected(kfs2[g], clients[c].keyFrames[g - base], orders[g - base], kfd1)
    ensures Merged(clients, kfs3, Touched(kfd1, ReferencedAll(clients[c].keyFrames)), mpd, c, base, offset, sequence, kfd1, orders)
    ensures forall g :: base <= g < |kfs3| ==> kfs3[g].aprilTagKeyFrame == Null
  {
    var src := clients[c].keyFrames;
    TouchedMeaning(kfd1, ReferencedAll(src));
    assert kfs1[base..] == MigratedAll(src, offset, sequence);
    PassesMergeRange(src, kfs1, kfs2, kfs3, kfd1, mpd, base, offset, sequence, orders);
    forall j | 0 <= j < |src|
      ensures kfs3[base + j] == MergedKeyFrame(src[j], offset, sequence, mpd, kfd1, orders[j])
                                  .(aprilTagKeyFrame := kfs3[base + j].aprilTagKeyFrame)
    {
      assert src[base + j - base] == src[j];
    }
    if ClosedLinks(clients, c) {
      ClosedRegistered(clients, c, kfd1, base);
    }
  }

  class Server {
    var vocabularyFormat: VocabularyFormat
    var clients: seq<ClientMap>                    // registered clients, in registration order
    var keyFrames: seq<KeyFrame<Ref>>              // every global keyframe created, by Ref index
    var mapPoints: seq<MapPoint<Ref>>              // every global map point created, by Ref index
    var globalKeyFrames: set<Ref>                  // the global Map's keyframes
    var globalMapPoints: set<Ref>                  // the global Map's map points
    var keyFrameDictionary: map<ClientRef, Ref>
    var mapPointDictionary: map<ClientRef, Ref>
    var timeDictionaryA: map<real, Ref>
    var timeDictionaryB: map<real, Ref>
    ghost var pointOrigin: seq<ClientRef>          // the client point each global map point was created for

    /** The server's tables are consistent: those of its keyframes and those of its map points. */
    ghost predicate Valid()
      reads this
    {
      KeyFramesValid() && Tables(Points())
    }

    /**
     * The keyframe tables are consistent: the map holds every global
     * keyframe, the keyframe dictionary sends distinct keys to distinct
     * global keyframes, and the time indexes point to keyframes of their
     * sequence stamped with their key.
     */
    ghost predicate KeyFramesValid()
      reads this`globalKeyFrames, this`keyFrames, this`keyFrameDictionary, this`timeDictionaryA, this`timeDictionaryB
    {
      && globalKeyFrames == ArenaRefs(|keyFrames|)
      && PointsInto(keyFrameDictionary, |keyFrames|) && InjectiveOnNonNull(keyFrameDictionary)
      && TimeIndexesValid(timeDictionaryA, timeDictionaryB, keyFrames)
    }

    /** The map-point side of the state. */
    ghost function Points(): PointState
      reads this`mapPointDictionary, this`mapPoints, this`pointOrigin, this`globalMapPoints
    {
      PointState(mapPointDictionary, mapPoints, pointOrigin, globalMapPoints)
    }

    /** `k` points to a keyframe of a registered client. */
    predicate IsClientKeyFrame(k: ClientRef)
      reads this`clients
    {
      k.ClientRef? && k.client < |clients| && k.index < |clients[k.client].keyFrames|
    }

    function ClientKeyFrame(k: ClientRef): KeyFrame<ClientRef>
      requires IsClientKeyFrame(k)
      reads this`clients
    {
      clients[k.client].keyFrames[k.index]
    }

    /** `k` has been migrated: its translation is a global keyframe. */
    predicate Registered(k: ClientRef)
      reads this`keyFrameDictionary, this`keyFrames
    {
      k in keyFrameDictionary && keyFrameDictionary[k].Ref? && keyFrameDictionary[k].index < |keyFrames|
    }

    /**
     * Lines 16-46: an empty global map and no clients; the vocabulary is read
     * by the text loader exactly when the path ends in ".txt".
     */
    constructor (vocabularyPath: string)
      requires |vocabularyPath| < Vocabulary.NPOS
      ensures Valid()
      ensures vocabularyFormat == (if Vocabulary.UsesTextLoader(vocabularyPath) then Text else Binary)
      ensures clients == [] && keyFrames == [] && mapPoints == []
      ensures keyFrameDictionary == map[] && mapPointDictionary == map[]
      ensures timeDictionaryA == map[] && timeDictionaryB == map[]
    {
      vocabularyFormat := if Vocabulary.UsesTextLoader(vocabularyPath) then Text else Binary;
      clients := [];
      keyFrames, mapPoints := [], [];
      globalKeyFrames, globalMapPoints := {}, {};
      keyFrameDictionary, mapPointDictionary := map[], map[];
      timeDictionaryA, timeDictionaryB := map[], map[];
      pointOrigin := [];
      assert ArenaRefs(0) == {};
    }

    /** Lines 269-274: the client is appended to the registry (the handshake back to it is not modelled). */
    method RegisterClient(client: ClientMap)
      modifies this`clients
      ensures clients == old(clients) + [client]
    {
      clients := clients + [client];
    }

    /**
     * Pass 1 for one keyframe: a new global keyframe with id shifted by
     * `offset` and tagged `sequence` is appended to the map, recorded in its
     * sequence's time index at its timestamp (overwriting an equal
     * timestamp) and registered as the keyframe's translation.
     */
    method InsertNewKeyFrame(keyframe: ClientRef, offset: int, sequence: int)
      requires KeyFramesValid() && IsClientKeyFrame(keyframe)
      modifies this`keyFrames, this`globalKeyFrames, this`keyFrameDictionary, this`timeDictionaryA, this`timeDictionaryB
      ensures KeyFramesValid()
      ensures keyFrames == old(keyFrames) + [Migrated(ClientKeyFrame(keyframe), offset, sequence)]
      ensures globalKeyFrames == old(globalKeyFrames) + {Ref(|old(keyFrames)|)}
      ensures Ref(|old(keyFrames)|) !in old(globalKeyFrames)
      ensures keyFrameDictionary == old(keyFrameDictionary)[keyframe := Ref(|old(keyFrames)|)]
      ensures sequence == SEQA ==>
                timeDictionaryA == old(timeDictionaryA)[ClientKeyFrame(keyframe).timestamp := Ref(|old(keyFrames)|)]
                && timeDictionaryB == old(timeDictionaryB)
      ensures sequence != SEQA ==>
                timeDictionaryB == old(timeDictionaryB)[ClientKeyFrame(keyframe).timestamp := Ref(|old(keyFrames)|)]
                && timeDictionaryA == old(timeDictionaryA)
    {
      var src := clients[keyframe.client].keyFrames[keyframe.index];
      var newKeyFrame := Ref(|keyFrames|);
      var kf := CopyOf(src);
      kf := kf.(id := kf.id + offset);
      kf := kf.(sequence := sequence);
      TimeIndexesExtended(timeDictionaryA, timeDictionaryB, keyFrames, kf);
      assert ArenaRefs(|keyFrames| + 1) == ArenaRefs(|keyFrames|) + {newKeyFrame};
      keyFrames := keyFrames + [kf];
      if sequence == SEQA {
        timeDictionaryA := timeDictionaryA[kf.timestamp := newKeyFrame];
      } else {
        timeDictionaryB := timeDictionaryB[kf.timestamp := newKeyFrame];
      }
      // ComputeBoW is not modelled.
      globalKeyFrames := globalKeyFrames + {newKeyFrame};
      keyFrameDictionary := keyFrameDictionary[keyframe := newKeyFrame];
    }
  
    /**
     * Pass 2 for one migrated keyframe. Each slot's client point is looked up:
     * the first time it is seen a global point (position and descriptor
     * copied, one observation of this keyframe and slot) is created, added
     * to the map and registered; later sightings add an observation to that
     * same global point. A null slot is pre-registered as null, so it
     * creates nothing and observes nothing. The global keyframe's slots end
     * up with the source's length, each the translation of the source slot.
     */
    method CopyKeyFrameMappoints(keyframe: ClientRef)
      requires Tables(Points()) && Seeded(mapPointDictionary)
      requires IsClientKeyFrame(keyframe) && Registered(keyframe)
      requires SlotsInClients(clients, ClientKeyFrame(keyframe).mapPoints)
      modifies this`keyFrames, this`mapPoints, this`globalMapPoints, this`mapPointDictionary, this`pointOrigin
      ensures Tables(Points()) && Seeded(mapPointDictionary)
      ensures Mirrored(clients, ClientKeyFrame(keyframe).mapPoints, |ClientKeyFrame(keyframe).mapPoints|,
                       keyFrameDictionary[keyframe], old(Points()), Points())
      ensures keyFrames == old(keyFrames)[keyFrameDictionary[keyframe].index :=
                old(keyFrames[keyFrameDictionary[keyframe].index]).(mapPoints := TranslateSeq(mapPointDictionary, ClientKeyFrame(keyframe).mapPoints))]
      ensures SameNodes(old(keyFrames), keyFrames)
    {
      var globalKeyFrame := keyFrameDictionary[keyframe];
      var g := globalKeyFrame.index;
      var slots := clients[keyframe.client].keyFrames[keyframe.index].mapPoints;
      // The global keyframe's record is edited locally and stored back once:
      // nothing in the loop reads another keyframe.
      var kf := keyFrames[g];
      kf := kf.(mapPoints := Resize(kf.mapPoints, |slots|));
      kf := MirrorSlots(slots, globalKeyFrame, kf);
      keyFrames := keyFrames[g := kf];
    }

    /**
     * The loop of the map-point pass over one keyframe's `slots`, mirrored
     * into global keyframe `globalKeyFrame` whose record is `kf`: each slot
     * is looked up, its global point found or created, and the slot of the
     * record set to that point.
     */
    method MirrorSlots(slots: seq<ClientRef>, globalKeyFrame: Ref, kf: KeyFrame<Ref>) returns (kf': KeyFrame<Ref>)
      requires Tables(Points()) && Seeded(mapPointDictionary) && SlotsInClients(clients, slots)
      requires |kf.mapPoints| == |slots|
      modifies this`mapPoints, this`globalMapPoints, this`mapPointDictionary, this`pointOrigin
      ensures Tables(Points()) && Seeded(mapPointDictionary)
      ensures Mirrored(clients, slots, |slots|, globalKeyFrame, old(Points()), Points())
      ensures kf' == kf.(mapPoints := TranslateSeq(mapPointDictionary, slots))
    {
      ghost var s0 := Points();
      MirrorStart(clients, slots, globalKeyFrame, s0);
      kf' := kf;
      var i := 0;
      while i < |slots|
        invariant i <= |slots|
        invariant Tables(Points()) && Seeded(mapPointDictionary)
        invariant Mirrored(clients, slots, i, globalKeyFrame, s0, Points())
        invariant kf' == kf.(mapPoints := kf'.mapPoints) && |kf'.mapPoints| == |slots|
        invariant forall i' :: 0 <= i' < i ==> slots[i'] in mapPointDictionary && kf'.mapPoints[i'] == mapPointDictionary[slots[i']]
      {
        kf' := MirrorStep(slots, i, globalKeyFrame, s0, kf, kf');
        i := i + 1;
      }
      assert kf'.mapPoints == TranslateSeq(mapPointDictionary, slots);
    }

    /** One turn of the loop of `MirrorSlots`: slot `i` is mirrored and the record's slot `i` set to its global point. */
    method MirrorStep(slots: seq<ClientRef>, i: nat, globalKeyFrame: Ref, ghost s0: PointState, ghost kf0: KeyFrame<Ref>, kf: KeyFrame<Ref>)
      returns (kf': KeyFrame<Ref>)
      requires i < |slots| && Tables(Points()) && Seeded(mapPointDictionary) && SlotsInClients(clients, slots)
      requires Mirrored(clients, slots, i, globalKeyFrame, s0, Points())
      requires kf == kf0.(mapPoints := kf.mapPoints) && |kf.mapPoints| == |slots|
      requires forall i' :: 0 <= i' < i ==> slots[i'] in mapPointDictionary && kf.mapPoints[i'] == mapPointDictionary[slots[i']]
      modifies this`mapPoints, this`globalMapPoints, this`mapPointDictionary, this`pointOrigin
      ensures Tables(Points()) && Seeded(mapPointDictionary)
      ensures Mirrored(clients, slots, i + 1, globalKeyFrame, s0, Points())
      ensures kf' == kf0.(mapPoints := kf'.mapPoints) && |kf'.mapPoints| == |slots|
      ensures forall i' :: 0 <= i' < i + 1 ==> slots[i'] in mapPointDictionary && kf'.mapPoints[i'] == mapPointDictionary[slots[i']]
    {
      var point := slots[i];
      ghost var d := mapPointDictionary;
      MirrorSlot(clients, slots, i, globalKeyFrame, s0, Points());
      var globalPoint := FindOrCreatePoint(slots, i, globalKeyFrame);
      kf' := AddMapPoint(kf, globalPoint, i);
      kf' := kf'.(mapPoints := kf'.mapPoints[i := mapPointDictionary[point]]);
      forall i' | 0 <= i' < i + 1 ensures slots[i'] in mapPointDictionary && kf'.mapPoints[i'] == mapPointDictionary[slots[i']] {
        if i' < i {
          assert slots[i'] in d && kf'.mapPoints[i'] == kf.mapPoints[i'] == d[slots[i']];
        }
      }
    }

    /**
     * The map-point side of one turn of the map-point loop, for slot `i` of
     * `slots` in global keyframe `globalKeyFrame`: a client point seen for
     * the first time gets a new global point, observed at
     * (globalKeyFrame, i), added to the map and registered; a registered
     * one gains that observation (none for `nullptr`). The result is the
     * global point the slot is then set to (`AddMapPoint` in either branch).
     */
    method FindOrCreatePoint(slots: seq<ClientRef>, i: nat, globalKeyFrame: Ref) returns (globalPoint: Ref)
      requires i < |slots| && IsClientPointOrNull(clients, slots[i]) && Seeded(mapPointDictionary)
      requires PointsInto(mapPointDictionary, |mapPoints|)
      modifies this`mapPoints, this`globalMapPoints, this`mapPointDictionary, this`pointOrigin
      ensures slots[i] in mapPointDictionary && globalPoint == mapPointDictionary[slots[i]]
      ensures Points() == SlotStep(old(Points()), clients, slots, i, globalKeyFrame)
    {
      var point := slots[i];
      if point !in mapPointDictionary {
        // Point not yet in the server map (the seeded null key is always present).
        var clientPoint := clients[point.client].mapPoints[point.index];
        var newMapPoint := MapPoint(clientPoint.worldPos, [], globalKeyFrame, []);
        newMapPoint := newMapPoint.(descriptor := clientPoint.descriptor);
        newMapPoint := AddObservation(newMapPoint, globalKeyFrame, i);
        globalPoint := Ref(|mapPoints|);
        mapPoints := mapPoints + [newMapPoint];
        globalMapPoints := globalMapPoints + {globalPoint};
        mapPointDictionary := mapPointDictionary[point := globalPoint];
        pointOrigin := pointOrigin + [point];
      } else {
        // Point already in the server map, or the null sentinel.
        globalPoint := mapPointDictionary[point];
        if globalPoint.Ref? {
          mapPoints := mapPoints[globalPoint.index := AddObservation(mapPoints[globalPoint.index], globalKeyFrame, i)];
        }
      }
    }

    /**
     * Pass 3 for one migrated keyframe: its covisibility weights (visited in
     * `weightOrder`, the address order of the source's weight map), ordered
     * connections and weights, parent, children and loop edges are copied
     * onto its global keyframe, each client pointer translated with
     * `operator[]`, so that every pointer looked up and not yet registered
     * gains a null entry. Nothing else changes.
     */
    method CopyKeyFrameConnections(keyframe: ClientRef, weightOrder: seq<ClientRef>)
      requires KeyFramesValid() && IsClientKeyFrame(keyframe) && Registered(keyframe)
      requires Enumerates(weightOrder, ClientKeyFrame(keyframe).connectedWeights.Keys)
      modifies this`keyFrames, this`keyFrameDictionary
      ensures KeyFramesValid()
      ensures keyFrameDictionary == Touched(old(keyFrameDictionary), Referenced(ClientKeyFrame(keyframe)))
      ensures keyFrames == old(keyFrames)[old(keyFrameDictionary[keyframe]).index :=
                Connected(old(keyFrames[keyFrameDictionary[keyframe].index]), ClientKeyFrame(keyframe), weightOrder, old(keyFrameDictionary))]
    {
      var globalKeyFrame := keyFrameDictionary[keyframe];
      var g := globalKeyFrame.index;
      var src := clients[keyframe.client].keyFrames[keyframe.index];
      // The global keyframe's record is edited locally and stored back once.
      var kf := ConnectKeyFrame(src, weightOrder, keyFrames[g]);
      keyFrames := keyFrames[g := kf];
      TouchedMeaning(old(keyFrameDictionary), Referenced(src));
      NullsKeepShape(old(keyFrameDictionary), keyFrameDictionary, |keyFrames|);
      assert SameNodes(old(keyFrames), keyFrames);
      TimeIndexesKept(timeDictionaryA, timeDictionaryB, old(keyFrames), keyFrames);
    }

    /**
     * The body of pass 3 on the record `kf` of the global keyframe of `src`:
     * the weights in `weightOrder`, then the ordered connections and
     * weights, the parent, the children and the loop edges, each pointer
     * translated with `operator[]`.
     */
    method ConnectKeyFrame(src: KeyFrame<ClientRef>, weightOrder: seq<ClientRef>, kf: KeyFrame<Ref>) returns (kf': KeyFrame<Ref>)
      requires Enumerates(weightOrder, src.connectedWeights.Keys)
      modifies this`keyFrameDictionary
      ensures keyFrameDictionary == Touched(old(keyFrameDictionary), Referenced(src))
      ensures kf' == Connected(kf, src, weightOrder, old(keyFrameDictionary))
    {
      ghost var d0 := keyFrameDictionary;

      // Sync keyframe connections.
      var weights := CopyWeights(src.connectedWeights, weightOrder, kf.connectedWeights);
      ghost var d1 := keyFrameDictionary;
      var ordered := AppendTranslated(src.orderedConnected, kf.orderedConnected);
      var orderedWeights := kf.orderedWeights;
      var i := 0;
      while i < |src.orderedWeights|
        invariant i <= |src.orderedWeights|
        invariant orderedWeights == kf.orderedWeights + src.orderedWeights[..i]
      {
        orderedWeights := orderedWeights + [src.orderedWeights[i]];
        i := i + 1;
      }
      assert src.orderedWeights[..i] == src.orderedWeights;
      kf' := kf.(connectedWeights := weights, orderedConnected := ordered, orderedWeights := orderedWeights);

      // Sync spanning tree.
      ghost var d2 := keyFrameDictionary;
      ghost var parentKeys: set<ClientRef> := {};
      TouchedNothing(d2);
      if src.parent != ClientNull {
        TouchedStep(d2, {}, src.parent);
        assert {} + {src.parent} == {src.parent};
        keyFrameDictionary := Touch(keyFrameDictionary, src.parent);
        var globalParent := keyFrameDictionary[src.parent];
        kf' := ChangeParent(kf', globalParent);
        parentKeys := {src.parent};
      }
      assert keyFrameDictionary == Touched(d2, parentKeys);
      ghost var d3 := keyFrameDictionary;
      var children := InsertTranslated(src.children, kf'.children);
      ghost var d4 := keyFrameDictionary;

      // Sync loop edges.
      var loopEdges := InsertTranslated(src.loopEdges, kf'.loopEdges);
      kf' := kf'.(children := children, loopEdges := loopEdges);

      // Each lookup translated as the dictionary did on entry.
      ghost var w, oc := Elements(weightOrder), Elements(src.orderedConnected);
      TouchedTwice(d0, w, oc);
      assert d2 == Touched(d0, w + oc);
      TouchedTwice(d0, w + oc, parentKeys);
      assert d3 == Touched(d0, w + oc + parentKeys);
      TouchedTwice(d0, w + oc + parentKeys, src.children);
      assert d4 == Touched(d0, w + oc + parentKeys + src.children);
      TouchedTwice(d0, w + oc + parentKeys + src.children, src.loopEdges);
      assert keyFrameDictionary == Touched(d0, w + oc + parentKeys + src.children + src.loopEdges);
      TouchedMeaning(d0, Elements(weightOrder));
      TranslateSeqStable(d0, d1, src.orderedConnected);
      TouchedMeaning(d0, Elements(weightOrder) + Elements(src.orderedConnected));
      TouchedMeaning(d0, Elements(weightOrder) + Elements(src.orderedConnected) + parentKeys);
      TranslateSetStable(d0, d3, src.children);
      TouchedMeaning(d0, Elements(weightOrder) + Elements(src.orderedConnected) + parentKeys + src.children);
      TranslateSetStable(d0, d4, src.loopEdges);
      ConnectionsLookUpReferenced(d0, src, weightOrder, parentKeys);
    }

    /**
     * The weight loop of pass 3: each pair of `source`, in `order`, is
     * written to `weights` under its key's translation.
     */
    method CopyWeights(source: map<ClientRef, int>, order: seq<ClientRef>, weights: map<Ref, int>) returns (r: map<Ref, int>)
      requires forall i :: 0 <= i < |order| ==> order[i] in source
      modifies this`keyFrameDictionary
      ensures keyFrameDictionary == Touched(old(keyFrameDictionary), Elements(order))
      ensures r == WeightsAfter(weights, source, order, old(keyFrameDictionary))
    {
      ghost var d0 := keyFrameDictionary;
      TouchedNothing(d0);
      r := weights;
      var i := 0;
      while i < |order|
        invariant i <= |order|
        invariant keyFrameDictionary == Touched(d0, Elements(order[..i]))
        invariant r == WeightsAfter(weights, source, order[..i], d0)
      {
        var connKF := order[i];
        TouchedStep(d0, Elements(order[..i]), connKF);
        TouchedMeaning(d0, Elements(order[..i]));
        keyFrameDictionary := Touch(keyFrameDictionary, connKF);
        var globalConnection := keyFrameDictionary[connKF];
        var weight := source[connKF];
        WeightsAfterStep(weights, source, order, d0, i);
        r := r[globalConnection := weight];
        ElementsStep(order, i);
        i := i + 1;
      }
      assert order[..i] == order;
    }

    /**
     * The ordered-connections loop of pass 3: the translation of each
     * pointer of `s`, in order, is appended to `into`.
     */
    method AppendTranslated(s: seq<ClientRef>, into: seq<Ref>) returns (r: seq<Ref>)
      modifies this`keyFrameDictionary
      ensures keyFrameDictionary == Touched(old(keyFrameDictionary), Elements(s))
      ensures r == into + TranslateSeq(old(keyFrameDictionary), s)
    {
      ghost var d0 := keyFrameDictionary;
      TouchedNothing(d0);
      r := into;
      var i := 0;
      while i < |s|
        invariant i <= |s|
        invariant keyFrameDictionary == Touched(d0, Elements(s[..i]))
        invariant r == into + TranslateSeq(d0, s[..i])
      {
        TouchedStep(d0, Elements(s[..i]), s[i]);
        TouchedMeaning(d0, Elements(s[..i]));
        keyFrameDictionary := Touch(keyFrameDictionary, s[i]);
        var globalOrderedConn := keyFrameDictionary[s[i]];
        assert TranslateSeq(d0, s[..i + 1]) == TranslateSeq(d0, s[..i]) + [globalOrderedConn];
        r := r + [globalOrderedConn];
        ElementsStep(s, i);
        i := i + 1;
      }
      assert s[..i] == s;
    }

    /**
     * The children and loop-edge loops of pass 3: the translation of each
     * pointer of `s` is inserted into `into`.
     */
    method InsertTranslated(s: set<ClientRef>, into: set<Ref>) returns (r: set<Ref>)
      modifies this`keyFrameDictionary
      ensures keyFrameDictionary == Touched(old(keyFrameDictionary), s)
      ensures r == into + TranslateSet(old(keyFrameDictionary), s)
    {
      ghost var d0 := keyFrameDictionary;
      TouchedNothing(d0);
      r := into;
      var remaining := s;
      while remaining != {}
        invariant remaining <= s
        invariant keyFrameDictionary == Touched(d0, s - remaining)
        invariant r == into + TranslateSet(d0, s - remaining)
        decreases remaining
      {
        var k :| k in remaining;
        TouchedStep(d0, s - remaining, k);
        TouchedMeaning(d0, s - remaining);
        keyFrameDictionary := Touch(keyFrameDictionary, k);
        var globalK := keyFrameDictionary[k];
        assert s - (remaining - {k}) == (s - remaining) + {k};
        TranslateSetStep(d0, s - remaining, k);
        r := r + {globalK};
        remaining := remaining - {k};
      }
    }
  
    /**
     * Lines 220-267: every keyframe of the global map is visited; one
     * carrying a marker is linked to the keyframe the lookup in the other
     * sequence's time index selects, if any. A visit writes only its own
     * keyframe's marker link and reads only timestamps, so the order in
     * which the map hands out its keyframes does not matter.
     */
    method FindAprilTagConnections()
      requires KeyFramesValid()
      modifies this`keyFrames
      ensures KeyFramesValid() && |keyFrames| == old(|keyFrames|) && Points() == old(Points())
      ensures SameNodes(old(keyFrames), keyFrames)
      ensures forall j :: 0 <= j < |keyFrames| ==> keyFrames[j] == Correlated(timeDictionaryA, timeDictionaryB, old(keyFrames), j)
    {
      ghost var kfs0 := keyFrames;
      var j := 0;
      while j < |keyFrames|
        invariant j <= |keyFrames| && SameNodes(kfs0, keyFrames)
        invariant forall j' :: 0 <= j' < j ==> keyFrames[j'] == Correlated(timeDictionaryA, timeDictionaryB, kfs0, j')
        invariant forall j' :: j <= j' < |keyFrames| ==> keyFrames[j'] == kfs0[j']
      {
        LinkMarker(j, kfs0);
        j := j + 1;
      }
      TimeIndexesKept(timeDictionaryA, timeDictionaryB, kfs0, keyFrames);
    }

    /**
     * The correlator's visit of keyframe `j` (lines 222-264), while the
     * keyframes differ from `kfs0` only in marker links: a keyframe carrying
     * a marker is linked as the lookup in the other sequence's index
     * selects, if it selects one; nothing else changes.
     */
    method LinkMarker(j: nat, ghost kfs0: seq<KeyFrame<Ref>>)
      requires TimeIndexesValid(timeDictionaryA, timeDictionaryB, kfs0)
      requires SameNodes(kfs0, keyFrames) && j < |keyFrames| && keyFrames[j] == kfs0[j]
      modifies this`keyFrames
      ensures keyFrames == old(keyFrames)[j := Correlated(timeDictionaryA, timeDictionaryB, kfs0, j)]
      ensures SameNodes(kfs0, keyFrames)
    {
      var keyframe := keyFrames[j];
      CorrelatedMeaning(timeDictionaryA, timeDictionaryB, kfs0, j);
      if keyframe.detectedAprilTag {
        // Look in the other sequence's index.
        var index := if keyframe.sequence == SEQA then timeDictionaryB else timeDictionaryA;
        MarkerMatchStable(index, kfs0, keyFrames, keyframe.timestamp);
        var closest := MarkerMatch(index, keyFrames, keyframe.timestamp);
        if closest.Some? {
          keyFrames := keyFrames[j := keyframe.(aprilTagKeyFrame := closest.value)];
        }
      }
    }

    /**
     * Pass 1 over the keyframes of client `c` (lines 82-85 for sequence A,
     * 97-100 for B): the j-th becomes global keyframe `|keyFrames| + j`,
     * id shifted by `offset` and tagged `sequence`, registered as the
     * translation of `ClientRef(c, j)` and recorded in its sequence's time
     * index, a later equal timestamp overwriting an earlier one.
     */
    method KeyFramePass(c: nat, offset: int, sequence: int)
      requires KeyFramesValid() && c < |clients|
      modifies this`keyFrames, this`globalKeyFrames, this`keyFrameDictionary, this`timeDictionaryA, this`timeDictionaryB
      ensures KeyFramesValid()
      ensures keyFrames == old(keyFrames) + MigratedAll(clients[c].keyFrames, offset, sequence)
      ensures keyFrameDictionary == Registrations(old(keyFrameDictionary), c, |clients[c].keyFrames|, old(|keyFrames|))
      ensures sequence == SEQA ==>
                timeDictionaryA == IndexAfter(old(timeDictionaryA), clients[c].keyFrames, old(|keyFrames|))
                && timeDictionaryB == old(timeDictionaryB)
      ensures sequence != SEQA ==>
                timeDictionaryB == IndexAfter(old(timeDictionaryB), clients[c].keyFrames, old(|keyFrames|))
                && timeDictionaryA == old(timeDictionaryA)
    {
      var keyframes := clients[c].keyFrames;
      ghost var base, kfs0, d0 := |keyFrames|, keyFrames, keyFrameDictionary;
      ghost var timeA0, timeB0 := timeDictionaryA, timeDictionaryB;
      var j := 0;
      while j < |keyframes|
        invariant j <= |keyframes| && KeyFramesValid()
        invariant keyFrames == kfs0 + MigratedAll(keyframes[..j], offset, sequence)
        invariant keyFrameDictionary == Registrations(d0, c, j, base)
        invariant sequence == SEQA ==> timeDictionaryA == IndexAfter(timeA0, keyframes[..j], base) && timeDictionaryB == timeB0
        invariant sequence != SEQA ==> timeDictionaryB == IndexAfter(timeB0, keyframes[..j], base) && timeDictionaryA == timeA0
      {
        ghost var timeA, timeB, kfs := timeDictionaryA, timeDictionaryB, keyFrames;
        assert |kfs| == base + j;
        assert ClientKeyFrame(ClientRef(c, j)) == keyframes[j];
        InsertNewKeyFrame(ClientRef(c, j), offset, sequence);
        MigratedAllStep(keyframes, offset, sequence, j);
        AppendAssociates(kfs0, MigratedAll(keyframes[..j], offset, sequence), [Migrated(keyframes[j], offset, sequence)]);
        RegistrationsStep(d0, c, j, base);
        if sequence == SEQA {
          assert timeDictionaryA == timeA[keyframes[j].timestamp := Ref(base + j)];
          IndexAfterStep(timeA0, keyframes, base, j);
        } else {
          assert timeDictionaryB == timeB[keyframes[j].timestamp := Ref(base + j)];
          IndexAfterStep(timeB0, keyframes, base, j);
        }
        j := j + 1;
      }
      assert keyframes[..j] == keyframes;
    }

    /**
     * Pass 2 over the keyframes of client `c` (lines 87-90, 102-105), whose
     * j-th keyframe is registered as global keyframe `base + j`: each
     * global keyframe's slots become the translations of its client
     * keyframe's slots, every slot ends up registered, earlier map-point
     * registrations are kept, no other keyframe changes, and the map points
     * are those the account of the pass describes.
     */
    method MapPointPass(c: nat, ghost base: nat)
      requires Valid() && Seeded(mapPointDictionary) && c < |clients| && SlotsWellFormed(clients, c)
      requires base + |clients[c].keyFrames| <= |keyFrames|
      requires RegisteredAt(keyFrameDictionary, c, |clients[c].keyFrames|, base)
      modifies this`keyFrames, this`mapPoints, this`globalMapPoints, this`mapPointDictionary, this`pointOrigin
      ensures Valid() && Seeded(mapPointDictionary)
      ensures Kept(old(mapPointDictionary), mapPointDictionary)
      ensures |keyFrames| == old(|keyFrames|)
      ensures forall g :: 0 <= g < |keyFrames| && !(base <= g < base + |clients[c].keyFrames|) ==> keyFrames[g] == old(keyFrames[g])
      ensures forall g :: base <= g < base + |clients[c].keyFrames| ==>
                keyFrames[g] == old(keyFrames[g]).(mapPoints := TranslateSeq(mapPointDictionary, clients[c].keyFrames[g - base].mapPoints))
      ensures forall j, i :: 0 <= j < |clients[c].keyFrames| && 0 <= i < |clients[c].keyFrames[j].mapPoints| ==>
                clients[c].keyFrames[j].mapPoints[i] in mapPointDictionary
      ensures MirroredPass(clients, clients[c].keyFrames, base, old(Points()), Points())
    {
      var keyframes := clients[c].keyFrames;
      ghost var kfs0, d0, s0 := keyFrames, mapPointDictionary, Points();
      MirroredPassStart(clients, keyframes, base, s0);
      var j := 0;
      while j < |keyframes|
        invariant j <= |keyframes|
        invariant Tables(Points()) && Seeded(mapPointDictionary) && Kept(d0, mapPointDictionary)
        invariant SameNodes(kfs0, keyFrames)
        invariant forall g :: 0 <= g < |keyFrames| && !(base <= g < base + j) ==> keyFrames[g] == kfs0[g]
        invariant forall g :: base <= g < base + j ==>
                    keyFrames[g] == kfs0[g].(mapPoints := TranslateSeq(mapPointDictionary, keyframes[g - base].mapPoints))
        invariant forall j', i :: 0 <= j' < j && 0 <= i < |keyframes[j'].mapPoints| ==> keyframes[j'].mapPoints[i] in mapPointDictionary
        invariant MirroredPass(clients, keyframes[..j], base, s0, Points())
      {
        MapPointStep(keyframes, c, j, base, kfs0, s0);
        j := j + 1;
      }
      assert keyframes[..j] == keyframes;
      TimeIndexesKept(timeDictionaryA, timeDictionaryB, kfs0, keyFrames);
    }

    /**
     * One turn of pass 2: keyframe `j` of client `c`, registered as global
     * keyframe `base + j`, is mirrored, while the slots of the keyframes
     * before it stay translated as they were; the account of the pass from
     * state `s0` is extended by keyframe `j`.
     */
    method MapPointStep(keyframes: seq<KeyFrame<ClientRef>>, c: nat, j: nat, ghost base: nat, ghost kfs0: seq<KeyFrame<Ref>>,
                        ghost s0: PointState)
      requires c < |clients| && keyframes == clients[c].keyFrames && j < |keyframes| && SlotsWellFormed(clients, c)
      requires Tables(Points()) && Seeded(mapPointDictionary)
      requires base + |keyframes| <= |keyFrames| && SameNodes(kfs0, keyFrames)
      requires RegisteredAt(keyFrameDictionary, c, |keyframes|, base)
      requires forall j', i :: 0 <= j' < j && 0 <= i < |keyframes[j'].mapPoints| ==> keyframes[j'].mapPoints[i] in mapPointDictionary
      requires keyFrames[base + j] == kfs0[base + j]
      requires forall g :: base <= g < base + j ==>
                 keyFrames[g] == kfs0[g].(mapPoints := TranslateSeq(mapPointDictionary, keyframes[g - base].mapPoints))
      requires MirroredPass(clients, keyframes[..j], base, s0, Points())
      modifies this`keyFrames, this`mapPoints, this`globalMapPoints, this`mapPointDictionary, this`pointOrigin
      ensures Tables(Points()) && Seeded(mapPointDictionary) && Kept(old(mapPointDictionary), mapPointDictionary)
      ensures SameNodes(kfs0, keyFrames)
      ensures keyFrames == old(keyFrames)[base + j := old(keyFrames[base + j]).(mapPoints := TranslateSeq(mapPointDictionary, keyframes[j].mapPoints))]
      ensures forall g :: base <= g < base + j + 1 ==>
                keyFrames[g] == kfs0[g].(mapPoints := TranslateSeq(mapPointDictionary, keyframes[g - base].mapPoints))
      ensures forall j', i :: 0 <= j' <= j && 0 <= i < |keyframes[j'].mapPoints| ==> keyframes[j'].mapPoints[i] in mapPointDictionary
      ensures MirroredPass(clients, keyframes[..j + 1], base, s0, Points())
    {
      ghost var s, kfs := Points(), keyFrames;
      assert keyFrameDictionary[ClientRef(c, j)] == Ref(base + j);
      CopyKeyFrameMappoints(ClientRef(c, j));
      assert SameNodes(kfs, keyFrames);
      MirroredRegisters(clients, keyframes[j].mapPoints, Ref(base + j), s, Points());
      MirroredPassStep(clients, keyframes, j, base, s0, s, Points());
      forall g | base <= g < base + j + 1
        ensures keyFrames[g] == kfs0[g].(mapPoints := TranslateSeq(mapPointDictionary, keyframes[g - base].mapPoints))
      {
        if g < base + j {
          TranslateSeqKept(s.d, mapPointDictionary, keyframes[g - base].mapPoints);
          assert keyFrames[g] == kfs[g] == kfs0[g].(mapPoints := TranslateSeq(s.d, keyframes[g - base].mapPoints));
        }
      }
    }

    /**
     * Pass 3 over the keyframes of client `c` (lines 92-95, 107-110), whose
     * j-th keyframe is registered as global keyframe `base + j` and whose
     * weight map visits its keys in `orders[j]`: each global keyframe
     * receives the connectivity of its client keyframe, translated as the
     * dictionary stood when the pass began; the dictionary gains a null
     * entry for every referenced pointer it lacked, and nothing else.
     */
    method ConnectionPass(c: nat, ghost base: nat, orders: seq<seq<ClientRef>>)
      requires KeyFramesValid() && c < |clients| && WeightOrders(clients, c, orders)
      requires base + |clients[c].keyFrames| <= |keyFrames|
      requires RegisteredAt(keyFrameDictionary, c, |clients[c].keyFrames|, base)
      modifies this`keyFrames, this`keyFrameDictionary
      ensures KeyFramesValid() && Points() == old(Points())
      ensures keyFrameDictionary == Touched(old(keyFrameDictionary), ReferencedAll(clients[c].keyFrames))
      ensures |keyFrames| == old(|keyFrames|)
      ensures forall g :: 0 <= g < |keyFrames| && !(base <= g < base + |clients[c].keyFrames|) ==> keyFrames[g] == old(keyFrames[g])
      ensures forall g :: base <= g < base + |clients[c].keyFrames| ==>
                keyFrames[g] == Connected(old(keyFrames[g]), clients[c].keyFrames[g - base], orders[g - base], old(keyFrameDictionary))
    {
      var keyframes := clients[c].keyFrames;
      ghost var kfs0, d0 := keyFrames, keyFrameDictionary;
      TouchedNothing(d0);
      var j := 0;
      while j < |keyframes|
        invariant j <= |keyframes| && KeyFramesValid()
        invariant keyFrameDictionary == Touched(d0, ReferencedAll(keyframes[..j]))
        invariant RegisteredAt(keyFrameDictionary, c, |keyframes|, base)
        invariant keyFrames == ConnectedThrough(kfs0, keyframes, orders, d0, base, j)
      {
        ConnectionStep(keyframes, c, j, base, orders, kfs0, d0);
        j := j + 1;
      }
      ConnectedThroughMeaning(kfs0, keyframes, orders, d0, base, j);
      assert keyframes[..j] == keyframes;
    }

    /**
     * One turn of pass 3: keyframe `j` of client `c`, registered as global
     * keyframe `base + j`, receives its connectivity; the null entries the
     * earlier turns added to the dictionary do not change what the earlier
     * keyframes received.
     */
    method ConnectionStep(keyframes: seq<KeyFrame<ClientRef>>, c: nat, j: nat, ghost base: nat, orders: seq<seq<ClientRef>>,
                          ghost kfs0: seq<KeyFrame<Ref>>, ghost d0: map<ClientRef, Ref>)
      requires c < |clients| && keyframes == clients[c].keyFrames && j < |keyframes| && WeightOrders(clients, c, orders)
      requires KeyFramesValid() && base + |keyframes| <= |keyFrames| == |kfs0|
      requires keyFrameDictionary == Touched(d0, ReferencedAll(keyframes[..j]))
      requires RegisteredAt(keyFrameDictionary, c, |keyframes|, base)
      requires keyFrames == ConnectedThrough(kfs0, keyframes, orders, d0, base, j)
      modifies this`keyFrames, this`keyFrameDictionary
      ensures KeyFramesValid()
      ensures keyFrameDictionary == Touched(d0, ReferencedAll(keyframes[..j + 1]))
      ensures RegisteredAt(keyFrameDictionary, c, |keyframes|, base)
      ensures keyFrames == ConnectedThrough(kfs0, keyframes, orders, d0, base, j + 1)
    {
      ghost var d, src := keyFrameDictionary, keyframes[j];
      ConnectedThroughMeaning(kfs0, keyframes, orders, d0, base, j);
      TouchedMeaning(d0, ReferencedAll(keyframes[..j]));
      assert keyFrameDictionary[ClientRef(c, j)] == Ref(base + j);
      assert ClientKeyFrame(ClientRef(c, j)) == src;
      CopyKeyFrameConnections(ClientRef(c, j), orders[j]);
      ConnectionStepDictionary(d0, keyframes, j, c, base);
      ConnectedStable(kfs0[base + j], src, orders[j], d0, d);
    }

    /**
     * Passes 2 and 3 over the keyframes of client `c` (lines 87-94,
     * 102-109), once pass 1 has appended them after `prefix`: together with
     * pass 1 they leave the keyframes merged, their links translated through
     * the dictionary pass 1 left, the other keyframes as they were, every
     * pointer the client keyframes link to touched in the dictionary, and the
     * map points as the account of pass 2 describes.
     */
    method CopyPasses(c: nat, ghost offset: int, ghost sequence: int, orders: seq<seq<ClientRef>>, ghost prefix: seq<KeyFrame<Ref>>)
      requires Valid() && Seeded(mapPointDictionary)
      requires c < |clients| && SlotsWellFormed(clients, c) && WeightOrders(clients, c, orders)
      requires keyFrames == prefix + MigratedAll(clients[c].keyFrames, offset, sequence)
      requires RegisteredAt(keyFrameDictionary, c, |clients[c].keyFrames|, |prefix|)
      modifies this`keyFrames, this`keyFrameDictionary, this`mapPoints, this`globalMapPoints, this`mapPointDictionary, this`pointOrigin
      ensures Valid() && Seeded(mapPointDictionary)
      ensures |keyFrames| == old(|keyFrames|) && forall g :: 0 <= g < |prefix| ==> keyFrames[g] == prefix[g]
      ensures Merged(clients, keyFrames, keyFrameDictionary, mapPointDictionary, c, |prefix|, offset, sequence,
                     old(keyFrameDictionary), orders)
      ensures forall g :: |prefix| <= g < |keyFrames| ==> keyFrames[g].aprilTagKeyFrame == Null
      ensures keyFrameDictionary == Touched(old(keyFrameDictionary), ReferencedAll(clients[c].keyFrames))
      ensures Kept(old(mapPointDictionary), mapPointDictionary)
      ensures MirroredPass(clients, clients[c].keyFrames, |prefix|, old(Points()), Points())
    {
      ghost var base, kfs1, kfd1 := |prefix|, keyFrames, keyFrameDictionary;
      MapPointPass(c, base);
      ghost var kfs2 := keyFrames;
      ConnectionPass(c, base, orders);
      PassesMerge(clients, c, prefix, kfs1, kfs2, keyFrames, kfd1, mapPointDictionary, base, offset, sequence, orders);
      forall g | 0 <= g < base ensures keyFrames[g] == prefix[g] {
        assert keyFrames[g] == kfs2[g] == kfs1[g];
      }
    }

    /**
     * The three passes of lines 82-95 (sequence A) or 97-110 (sequence B)
     * over client `c`: its keyframes are merged after the existing ones,
     * with ids shifted by `offset` and tagged `sequence`, their links
     * translated through `passDictionary`, the dictionary as pass 1 left it,
     * and indexed by time in that sequence's index; the dictionary ends as
     * `passDictionary` with every pointer the client links to touched; the
     * map points are as the account of pass 2 describes.
     */
    method MergeSequence(c: nat, offset: int, sequence: int, orders: seq<seq<ClientRef>>) returns (ghost passDictionary: map<ClientRef, Ref>)
      requires Valid() && Seeded(mapPointDictionary)
      requires c < |clients| && SlotsWellFormed(clients, c) && WeightOrders(clients, c, orders)
      modifies this`keyFrames, this`globalKeyFrames, this`keyFrameDictionary, this`timeDictionaryA, this`timeDictionaryB
      modifies this`mapPoints, this`globalMapPoints, this`mapPointDictionary, this`pointOrigin
      ensures Valid() && Seeded(mapPointDictionary)
      ensures |keyFrames| == old(|keyFrames|) + |clients[c].keyFrames| && keyFrames[..old(|keyFrames|)] == old(keyFrames)
      ensures passDictionary == Registrations(old(keyFrameDictionary), c, |clients[c].keyFrames|, old(|keyFrames|))
      ensures keyFrameDictionary == Touched(passDictionary, ReferencedAll(clients[c].keyFrames))
      ensures Merged(clients, keyFrames, keyFrameDictionary, mapPointDictionary, c, old(|keyFrames|), offset, sequence,
                     passDictionary, orders)
      ensures forall g :: old(|keyFrames|) <= g < |keyFrames| ==> keyFrames[g].aprilTagKeyFrame == Null
      ensures forall k :: k in old(keyFrameDictionary) && !OfClient(k, c, |clients[c].keyFrames|) ==>
                k in keyFrameDictionary && keyFrameDictionary[k] == old(keyFrameDictionary)[k]
      ensures Kept(old(mapPointDictionary), mapPointDictionary)
      ensures MirroredPass(clients, clients[c].keyFrames, old(|keyFrames|), old(Points()), Points())
      ensures sequence == SEQA ==>
                timeDictionaryA == IndexAfter(old(timeDictionaryA), clients[c].keyFrames, old(|keyFrames|))
                && timeDictionaryB == old(timeDictionaryB)
      ensures sequence != SEQA ==>
                timeDictionaryB == IndexAfter(old(timeDictionaryB), clients[c].keyFrames, old(|keyFrames|))
                && timeDictionaryA == old(timeDictionaryA)
    {
      KeyFramePass(c, offset, sequence);
      passDictionary := keyFrameDictionary;
      ghost var timeA, timeB := timeDictionaryA, timeDictionaryB;
      RegistrationsMeaning(old(keyFrameDictionary), c, |clients[c].keyFrames|, old(|keyFrames|));
      CopyPasses(c, offset, sequence, orders, old(keyFrames));
      TouchedMeaning(passDictionary, ReferencedAll(clients[c].keyFrames));
      assert timeDictionaryA == timeA && timeDictionaryB == timeB;
      PrefixOf(keyFrames, old(keyFrames));
    }

    /**
     * Lines 96-110: client 1's map is merged as sequence B, with ids shifted
     * by the number of keyframes the global map holds, after the keyframes
     * merged from client 0 as sequence A at `baseA`; every earlier keyframe
     * is kept as it was.
     */
    method MergeSecond(weightOrders: seq<seq<ClientRef>>, ghost baseA: nat, ghost dictionaryA: map<ClientRef, Ref>,
                       ghost ordersA: seq<seq<ClientRef>>) returns (ghost dictionaryB: map<ClientRef, Ref>)
      requires Valid() && Seeded(keyFrameDictionary) && Seeded(mapPointDictionary)
      requires |clients| >= 2 && SlotsWellFormed(clients, 1) && WeightOrders(clients, 1, weightOrders)
      requires baseA + |clients[0].keyFrames| == |keyFrames|
      requires Merged(clients, keyFrames, keyFrameDictionary, mapPointDictionary, 0, baseA, 0, SEQA, dictionaryA, ordersA)
      requires forall g :: baseA <= g < |keyFrames| ==> keyFrames[g].aprilTagKeyFrame == Null
      modifies this`keyFrames, this`globalKeyFrames, this`keyFrameDictionary, this`timeDictionaryA, this`timeDictionaryB
      modifies this`mapPoints, this`globalMapPoints, this`mapPointDictionary, this`pointOrigin
      ensures Valid() && Seeded(keyFrameDictionary) && Seeded(mapPointDictionary)
      ensures |keyFrames| == old(|keyFrames|) + |clients[1].keyFrames|
      ensures keyFrames[..old(|keyFrames|)] == old(keyFrames)
      ensures dictionaryB == Registrations(old(keyFrameDictionary), 1, |clients[1].keyFrames|, old(|keyFrames|))
      ensures keyFrameDictionary == Touched(dictionaryB, ReferencedAll(clients[1].keyFrames))
      ensures Merged(clients, keyFrames, keyFrameDictionary, mapPointDictionary, 0, baseA, 0, SEQA, dictionaryA, ordersA)
      ensures Merged(clients, keyFrames, keyFrameDictionary, mapPointDictionary, 1, old(|keyFrames|), old(|keyFrames|), SEQB,
                     dictionaryB, weightOrders)
      ensures forall g :: baseA <= g < |keyFrames| ==> keyFrames[g].aprilTagKeyFrame == Null
      ensures MirroredPass(clients, clients[1].keyFrames, old(|keyFrames|), old(Points()), Points())
      ensures timeDictionaryA == old(timeDictionaryA)
      ensures timeDictionaryB == IndexAfter(old(timeDictionaryB), clients[1].keyFrames, old(|keyFrames|))
    {
      ghost var kfs, kfd, mpd := keyFrames, keyFrameDictionary, mapPointDictionary;
      ArenaRefsSize(|keyFrames|);
      var offset := |globalKeyFrames|;
      dictionaryB := MergeSequence(1, offset, SEQB, weightOrders);
      forall g | baseA <= g < |kfs| ensures keyFrames[g] == kfs[g].(aprilTagKeyFrame := keyFrames[g].aprilTagKeyFrame) {
        assert keyFrames[..|kfs|][g] == kfs[g];
      }
      MergedKept(clients, kfs, kfd, mpd, keyFrames, keyFrameDictionary, mapPointDictionary, 0, baseA, 0, SEQA, dictionaryA, ordersA);
    }

    /**
     * Lines 63-95: with the null pointer registered as null in both
     * dictionaries, client 0's map is merged as sequence A, with ids as they
     * are, its links translated through `dictionaryA`, the dictionary pass 1
     * left; the map points are as the account of pass 2 describes, from the
     * seeded state.
     */
    method MergeFirst(weightOrdersA: seq<seq<ClientRef>>) returns (ghost dictionaryA: map<ClientRef, Ref>)
      requires Valid() && |clients| >= 2
      requires SlotsWellFormed(clients, 0) && WeightOrders(clients, 0, weightOrdersA)
      modifies this`keyFrames, this`globalKeyFrames, this`keyFrameDictionary, this`timeDictionaryA, this`timeDictionaryB
      modifies this`mapPoints, this`globalMapPoints, this`mapPointDictionary, this`pointOrigin
      ensures Valid() && Seeded(keyFrameDictionary) && Seeded(mapPointDictionary)
      ensures |keyFrames| == old(|keyFrames|) + |clients[0].keyFrames| && keyFrames[..old(|keyFrames|)] == old(keyFrames)
      ensures dictionaryA == Registrations(old(keyFrameDictionary)[ClientNull := Null], 0, |clients[0].keyFrames|, old(|keyFrames|))
      ensures keyFrameDictionary == Touched(dictionaryA, ReferencedAll(clients[0].keyFrames))
      ensures Merged(clients, keyFrames, keyFrameDictionary, mapPointDictionary, 0, old(|keyFrames|), 0, SEQA, dictionaryA, weightOrdersA)
      ensures forall g :: old(|keyFrames|) <= g < |keyFrames| ==> keyFrames[g].aprilTagKeyFrame == Null
      ensures MirroredPass(clients, clients[0].keyFrames, old(|keyFrames|), old(Points()).(d := old(mapPointDictionary)[ClientNull := Null]), Points())
      ensures timeDictionaryA == IndexAfter(old(timeDictionaryA), clients[0].keyFrames, old(|keyFrames|))
      ensures timeDictionaryB == old(timeDictionaryB)
    {
      keyFrameDictionary := keyFrameDictionary[ClientNull := Null];
      mapPointDictionary := mapPointDictionary[ClientNull := Null];
      ghost var s0 := Points();
      assert s0 == old(Points()).(d := old(mapPointDictionary)[ClientNull := Null]);
      dictionaryA := MergeSequence(0, 0, SEQA, weightOrdersA);
    }

    /**
     * Lines 63-111: client 0's map is merged as sequence A, then client 1's
     * as sequence B. `weightOrdersA` and `weightOrdersB` give the order
     * each keyframe's weight map is visited in; `dictionaryA` and
     * `dictionaryB` are the keyframe dictionaries the two connection passes
     * read, and `pointsA` the map-point side of the state between the two
     * merges.
     */
    method MergeBoth(weightOrdersA: seq<seq<ClientRef>>, weightOrdersB: seq<seq<ClientRef>>)
      returns (ghost baseB: nat, ghost dictionaryA: map<ClientRef, Ref>, ghost dictionaryB: map<ClientRef, Ref>, ghost pointsA: PointState)
      requires Valid() && |clients| >= 2
      requires SlotsWellFormed(clients, 0) && WeightOrders(clients, 0, weightOrdersA)
      requires SlotsWellFormed(clients, 1) && WeightOrders(clients, 1, weightOrdersB)
      modifies this`keyFrames, this`globalKeyFrames, this`keyFrameDictionary, this`timeDictionaryA, this`timeDictionaryB
      modifies this`mapPoints, this`globalMapPoints, this`mapPointDictionary, this`pointOrigin
      ensures Valid() && Seeded(keyFrameDictionary) && Seeded(mapPointDictionary)
      ensures |keyFrames| == old(|keyFrames|) + |clients[0].keyFrames| + |clients[1].keyFrames|
      ensures keyFrames[..old(|keyFrames|)] == old(keyFrames)
      ensures baseB == old(|keyFrames|) + |clients[0].keyFrames|
      ensures dictionaryA == Registrations(old(keyFrameDictionary)[ClientNull := Null], 0, |clients[0].keyFrames|, old(|keyFrames|))
      ensures dictionaryB == Registrations(Touched(dictionaryA, ReferencedAll(clients[0].keyFrames)), 1, |clients[1].keyFrames|, baseB)
      ensures keyFrameDictionary == Touched(dictionaryB, ReferencedAll(clients[1].keyFrames))
      ensures Merged(clients, keyFrames, keyFrameDictionary, mapPointDictionary, 0, old(|keyFrames|), 0, SEQA, dictionaryA, weightOrdersA)
      ensures Merged(clients, keyFrames, keyFrameDictionary, mapPointDictionary, 1, baseB, baseB, SEQB, dictionaryB, weightOrdersB)
      ensures forall g :: old(|keyFrames|) <= g < |keyFrames| ==> keyFrames[g].aprilTagKeyFrame == Null
      ensures MirroredPass(clients, clients[0].keyFrames, old(|keyFrames|), old(Points()).(d := old(mapPointDictionary)[ClientNull := Null]), pointsA)
      ensures MirroredPass(clients, clients[1].keyFrames, baseB, pointsA, Points())
      ensures timeDictionaryA == IndexAfter(old(timeDictionaryA), clients[0].keyFrames, old(|keyFrames|))
      ensures timeDictionaryB == IndexAfter(old(timeDictionaryB), clients[1].keyFrames, baseB)
    {
      dictionaryA := MergeFirst(weightOrdersA);
      ghost var kfs1 := keyFrames;
      baseB, pointsA := |keyFrames|, Points();
      dictionaryB := MergeSecond(weightOrdersB, old(|keyFrames|), dictionaryA, weightOrdersA);
      forall g | 0 <= g < old(|keyFrames|) ensures keyFrames[g] == old(keyFrames[g]) {
        assert keyFrames[..|kfs1|][g] == kfs1[g];
        assert kfs1[..old(|keyFrames|)][g] == old(keyFrames[g]);
      }
      PrefixOf(keyFrames, old(keyFrames));
    }

    /**
     * Lines 112-115: the marker correlator runs over the merged map, whose
     * first `n0` keyframes are the `prior` ones and whose merged keyframes
     * (sequence A from `n0`, sequence B from `baseB`) hold no link yet. Each
     * keyframe gains the link the correlator finds for it, if any, and
     * changes in nothing else, so the merge itself is untouched.
     */
    method Correlate(ghost n0: nat, ghost baseB: nat, ghost prior: seq<KeyFrame<Ref>>,
                     ghost dictionaryA: map<ClientRef, Ref>, ghost dictionaryB: map<ClientRef, Ref>,
                     ghost ordersA: seq<seq<ClientRef>>, ghost ordersB: seq<seq<ClientRef>>)
      requires Valid() && Seeded(keyFrameDictionary) && Seeded(mapPointDictionary) && |clients| >= 2
      requires baseB == n0 + |clients[0].keyFrames| && |keyFrames| == baseB + |clients[1].keyFrames|
      requires |prior| == n0 && keyFrames[..n0] == prior
      requires Merged(clients, keyFrames, keyFrameDictionary, mapPointDictionary, 0, n0, 0, SEQA, dictionaryA, ordersA)
      requires Merged(clients, keyFrames, keyFrameDictionary, mapPointDictionary, 1, baseB, baseB, SEQB, dictionaryB, ordersB)
      requires forall g :: n0 <= g < |keyFrames| ==> keyFrames[g].aprilTagKeyFrame == Null
      modifies this`keyFrames
      ensures Valid() && |keyFrames| == old(|keyFrames|) && Points() == old(Points())
      ensures Merged(clients, keyFrames, keyFrameDictionary, mapPointDictionary, 0, n0, 0, SEQA, dictionaryA, ordersA)
      ensures Merged(clients, keyFrames, keyFrameDictionary, mapPointDictionary, 1, baseB, baseB, SEQB, dictionaryB, ordersB)
      ensures forall g :: 0 <= g < n0 ==>
                keyFrames[g] == prior[g].(aprilTagKeyFrame :=
                  LinkedTo(NewLink(timeDictionaryA, timeDictionaryB, keyFrames, g), prior[g].aprilTagKeyFrame))
      ensures forall g :: n0 <= g < |keyFrames| ==>
                keyFrames[g] == old(keyFrames[g]).(aprilTagKeyFrame := LinkedTo(NewLink(timeDictionaryA, timeDictionaryB, keyFrames, g), Null))
    {
      ghost var kfs := keyFrames;
      FindAprilTagConnections();
      CorrelatedLinks(timeDictionaryA, timeDictionaryB, kfs, keyFrames);
      MergesRelinked(clients, kfs, keyFrames, keyFrameDictionary, mapPointDictionary, n0, baseB, dictionaryA, dictionaryB, ordersA, ordersB);
      forall g | 0 <= g < n0 ensures kfs[g] == prior[g] {
        assert kfs[..n0][g] == kfs[g];
      }
    }

    /**
     * Lines 63-115: both clients' maps are merged, and the marker correlator
     * then links keyframes of the two sequences: every keyframe ends with
     * the link the correlator makes for it, or the one it held before; the
     * merged keyframes held none. `dictionaryA` and `dictionaryB` are the
     * keyframe dictionaries the two connection passes read, and `pointsA`
     * the map-point side of the state between the two merges.
     */
    method Run(weightOrdersA: seq<seq<ClientRef>>, weightOrdersB: seq<seq<ClientRef>>)
      returns (ghost baseB: nat, ghost dictionaryA: map<ClientRef, Ref>, ghost dictionaryB: map<ClientRef, Ref>, ghost pointsA: PointState)
      requires Valid() && |clients| >= 2
      requires SlotsWellFormed(clients, 0) && WeightOrders(clients, 0, weightOrdersA)
      requires SlotsWellFormed(clients, 1) && WeightOrders(clients, 1, weightOrdersB)
      modifies this`keyFrames, this`globalKeyFrames, this`keyFrameDictionary, this`timeDictionaryA, this`timeDictionaryB
      modifies this`mapPoints, this`globalMapPoints, this`mapPointDictionary, this`pointOrigin
      ensures Valid() && Seeded(keyFrameDictionary) && Seeded(mapPointDictionary)
      ensures |keyFrames| == old(|keyFrames|) + |clients[0].keyFrames| + |clients[1].keyFrames|
      ensures baseB == old(|keyFrames|) + |clients[0].keyFrames|
      ensures dictionaryA == Registrations(old(keyFrameDictionary)[ClientNull := Null], 0, |clients[0].keyFrames|, old(|keyFrames|))
      ensures dictionaryB == Registrations(Touched(dictionaryA, ReferencedAll(clients[0].keyFrames)), 1, |clients[1].keyFrames|, baseB)
      ensures keyFrameDictionary == Touched(dictionaryB, ReferencedAll(clients[1].keyFrames))
      ensures Merged(clients, keyFrames, keyFrameDictionary, mapPointDictionary, 0, old(|keyFrames|), 0, SEQA, dictionaryA, weightOrdersA)
      ensures Merged(clients, keyFrames, keyFrameDictionary, mapPointDictionary, 1, baseB, baseB, SEQB, dictionaryB, weightOrdersB)
      ensures MirroredPass(clients, clients[0].keyFrames, old(|keyFrames|), old(Points()).(d := old(mapPointDictionary)[ClientNull := Null]), pointsA)
      ensures MirroredPass(clients, clients[1].keyFrames, baseB, pointsA, Points())
      ensures timeDictionaryA == IndexAfter(old(timeDictionaryA), clients[0].keyFrames, old(|keyFrames|))
      ensures timeDictionaryB == IndexAfter(old(timeDictionaryB), clients[1].keyFrames, baseB)
      ensures forall g :: 0 <= g < old(|keyFrames|) ==>
                keyFrames[g] == old(keyFrames[g]).(aprilTagKeyFrame :=
                  LinkedTo(NewLink(timeDictionaryA, timeDictionaryB, keyFrames, g), old(keyFrames[g]).aprilTagKeyFrame))
      ensures forall g :: old(|keyFrames|) <= g < |keyFrames| ==>
                keyFrames[g].aprilTagKeyFrame == LinkedTo(NewLink(timeDictionaryA, timeDictionaryB, keyFrames, g), Null)
    {
      baseB, dictionaryA, dictionaryB, pointsA := MergeBoth(weightOrdersA, weightOrdersB);
      Correlate(old(|keyFrames|), baseB, old(keyFrames), dictionaryA, dictionaryB, weightOrdersA, weightOrdersB);
    }
  }
}
