/**
 * The connectivity pass over one keyframe: its covisibility weights, its
 * ordered connections and weights, its spanning-tree parent and children
 * and its loop edges are copied onto the global keyframe, every client
 * pointer translated through the keyframe dictionary.
 */
module Connections {
  import opened Graph

  /** `order` lists every key of `keys` exactly once. */
  ghost predicate Enumerates(order: seq<ClientRef>, keys: set<ClientRef>)
  {
    && (forall i, j :: 0 <= i < j < |order| ==> order[i] != order[j])
    && (forall k :: k in order <==> k in keys)
  }

  /** Every finite set of keys can be listed, each key once. */
  lemma {:induction false} EnumerationExists(keys: set<ClientRef>)
    ensures exists order :: Enumerates(order, keys)
    decreases |keys|
  {
    if keys == {} {
      assert Enumerates([], keys);
    } else {
      var k :| k in keys;
      EnumerationExists(keys - {k});
      var rest :| Enumerates(rest, keys - {k});
      assert Enumerates(rest + [k], keys);
    }
  }

  /**
   * The covisibility weights after the pairs of `source` have been copied in
   * `order`, each key translated by `d` and each write overwriting the
   * weight already stored under the same translated key. The pass visits
   * only keys `source` holds, so a key of `order` it lacks copies nothing.
   */
  function WeightsAfter(before: map<Ref, int>, source: map<ClientRef, int>, order: seq<ClientRef>,
                        d: map<ClientRef, Ref>): map<Ref, int>
  {
    if order == [] then before
    else
      var n := |order| - 1;
      var prior := WeightsAfter(before, source, order[..n], d);
      if order[n] in source then prior[Translated(d, order[n]) := source[order[n]]] else prior
  }

  /** Copying one more pair writes its weight under its key's translation. */
  lemma WeightsAfterStep(before: map<Ref, int>, source: map<ClientRef, int>, order: seq<ClientRef>,
                         d: map<ClientRef, Ref>, i: nat)
    requires forall i :: 0 <= i < |order| ==> order[i] in source
    requires i < |order|
    ensures WeightsAfter(before, source, order[..i + 1], d)
         == WeightsAfter(before, source, order[..i], d)[Translated(d, order[i]) := source[order[i]]]
  {
    assert order[..i + 1][..i] == order[..i];
  }

  /** The copied weights are stored under exactly the translations of the copied keys, besides the old ones. */
  lemma {:induction false} WeightsAfterKeys(before: map<Ref, int>, source: map<ClientRef, int>, order: seq<ClientRef>,
                                            d: map<ClientRef, Ref>)
    requires forall i :: 0 <= i < |order| ==> order[i] in source
    ensures forall g :: g in WeightsAfter(before, source, order, d) <==> g in before || g in TranslateSeq(d, order)
  {
    if order != [] {
      var n := |order| - 1;
      WeightsAfterKeys(before, source, order[..n], d);
      assert TranslateSeq(d, order) == TranslateSeq(d, order[..n]) + [Translated(d, order[n])];
    }
  }

  /**
   * Last writer wins: a translated key holds the weight of the last pair in
   * `order` translating to it.
   */
  lemma {:induction false} LastWriterWins(before: map<Ref, int>, source: map<ClientRef, int>, order: seq<ClientRef>,
                                          d: map<ClientRef, Ref>, j: nat)
    requires forall i :: 0 <= i < |order| ==> order[i] in source
    requires j < |order|
    requires forall i :: j < i < |order| ==> Translated(d, order[i]) != Translated(d, order[j])
    ensures Translated(d, order[j]) in WeightsAfter(before, source, order, d)
    ensures WeightsAfter(before, source, order, d)[Translated(d, order[j])] == source[order[j]]
  {
    var n := |order| - 1;
    if j < n {
      LastWriterWins(before, source, order[..n], d, j);
    }
  }

  /** A weight no copied pair translates to is left as it was. */
  lemma {:induction false} UntouchedWeightKept(before: map<Ref, int>, source: map<ClientRef, int>, order: seq<ClientRef>,
                                               d: map<ClientRef, Ref>, g: Ref)
    requires forall i :: 0 <= i < |order| ==> order[i] in source
    requires g in before && forall i :: 0 <= i < |order| ==> Translated(d, order[i]) != g
    ensures g in WeightsAfter(before, source, order, d) && WeightsAfter(before, source, order, d)[g] == before[g]
  {
    if order != [] {
      UntouchedWeightKept(before, source, order[..|order| - 1], d, g);
    }
  }

  /**
   * When translation keeps the copied keys apart, every source pair
   * survives: the global weight of each translated key is its source weight.
   */
  lemma WeightsExact(before: map<Ref, int>, source: map<ClientRef, int>, order: seq<ClientRef>,
                     d: map<ClientRef, Ref>, k: ClientRef)
    requires Enumerates(order, source.Keys)
    requires forall k1, k2 :: k1 in source && k2 in source && k1 != k2 ==> Translated(d, k1) != Translated(d, k2)
    requires k in source
    ensures Translated(d, k) in WeightsAfter(before, source, order, d)
    ensures WeightsAfter(before, source, order, d)[Translated(d, k)] == source[k]
  {
    var j :| 0 <= j < |order| && order[j] == k;
    LastWriterWins(before, source, order, d, j);
  }

  /** Every client pointer a keyframe's connectivity names: what the connectivity pass looks up. */
  function Referenced(src: KeyFrame<ClientRef>): set<ClientRef>
  {
    src.connectedWeights.Keys + Elements(src.orderedConnected)
    + (if src.parent != ClientNull then {src.parent} else {})
    + src.children + src.loopEdges
  }

  /**
   * The global keyframe `kf` after the connectivity pass has copied the
   * links of client keyframe `src`, the weight pairs in `order`, through
   * dictionary `d`: ordered lists appended in source order, the parent
   * replaced only when the source has one, children and loop edges added.
   */
  function Connected(kf: KeyFrame<Ref>, src: KeyFrame<ClientRef>, order: seq<ClientRef>, d: map<ClientRef, Ref>): KeyFrame<Ref>
  {
    kf.(connectedWeights := WeightsAfter(kf.connectedWeights, src.connectedWeights, order, d),
        orderedConnected := kf.orderedConnected + TranslateSeq(d, src.orderedConnected),
        orderedWeights := kf.orderedWeights + src.orderedWeights,
        parent := if src.parent != ClientNull then Translated(d, src.parent) else kf.parent,
        children := kf.children + TranslateSet(d, src.children),
        loopEdges := kf.loopEdges + TranslateSet(d, src.loopEdges))
  }

  /**
   * What the connectivity pass gives a keyframe: the ordered connections and
   * weights keep what was there and gain the source's, in source order and
   * with the source's lengths, each connection translated; the parent
   * changes only when the source has one; children and loop edges gain
   * exactly the translations of the source's.
   */
  lemma ConnectedMeaning(kf: KeyFrame<Ref>, src: KeyFrame<ClientRef>, order: seq<ClientRef>, d: map<ClientRef, Ref>)
    ensures var r := Connected(kf, src, order, d);
      && |r.orderedConnected| == |kf.orderedConnected| + |src.orderedConnected|
      && r.orderedConnected[..|kf.orderedConnected|] == kf.orderedConnected
      && (forall i :: 0 <= i < |src.orderedConnected| ==>
            r.orderedConnected[|kf.orderedConnected| + i] == Translated(d, src.orderedConnected[i]))
      && r.orderedWeights == kf.orderedWeights + src.orderedWeights
      && (src.parent == ClientNull ==> r.parent == kf.parent)
      && (src.parent != ClientNull ==> r.parent == Translated(d, src.parent))
      && (forall g :: g in r.children <==> g in kf.children || exists k :: k in src.children && Translated(d, k) == g)
      && (forall g :: g in r.loopEdges <==> g in kf.loopEdges || exists k :: k in src.loopEdges && Translated(d, k) == g)
      && r == kf.(connectedWeights := r.connectedWeights, orderedConnected := r.orderedConnected,
                  orderedWeights := r.orderedWeights, parent := r.parent, children := r.children, loopEdges := r.loopEdges)
  {
    var r := Connected(kf, src, order, d);
    assert r.orderedConnected == kf.orderedConnected + TranslateSeq(d, src.orderedConnected);
    TranslateSetMeaning(d, src.children);
    TranslateSetMeaning(d, src.loopEdges);
  }

  /**
   * The lookups of the connectivity pass, in its order (weights, ordered
   * connections, parent, children, loop edges), touch exactly the
   * pointers the keyframe references.
   */
  lemma ConnectionsLookUpReferenced(d: map<ClientRef, Ref>, src: KeyFrame<ClientRef>, weightOrder: seq<ClientRef>,
                                    parentKeys: set<ClientRef>)
    requires Enumerates(weightOrder, src.connectedWeights.Keys)
    requires parentKeys == if src.parent != ClientNull then {src.parent} else {}
    ensures Touched(d, Elements(weightOrder) + Elements(src.orderedConnected) + parentKeys + src.children + src.loopEdges)
         == Touched(d, Referenced(src))
  {
    assert Elements(weightOrder) == src.connectedWeights.Keys;
  }

  /** Null entries leave the copied weights as they were. */
  lemma {:induction false} WeightsAfterStable(before: map<Ref, int>, source: map<ClientRef, int>, order: seq<ClientRef>,
                                              d: map<ClientRef, Ref>, d': map<ClientRef, Ref>)
    requires ExtendsWithNulls(d, d')
    ensures WeightsAfter(before, source, order, d') == WeightsAfter(before, source, order, d)
  {
    if order != [] {
      WeightsAfterStable(before, source, order[..|order| - 1], d, d');
      TranslationStable(d, d', order[|order| - 1]);
    }
  }

  /**
   * The null entries the pass inserts while copying one keyframe leave what
   * it copies for any other keyframe as it was.
   */
  lemma ConnectedStable(kf: KeyFrame<Ref>, src: KeyFrame<ClientRef>, order: seq<ClientRef>,
                        d: map<ClientRef, Ref>, d': map<ClientRef, Ref>)
    requires ExtendsWithNulls(d, d')
    ensures Connected(kf, src, order, d') == Connected(kf, src, order, d)
  {
    WeightsAfterStable(kf.connectedWeights, src.connectedWeights, order, d, d');
    TranslateSeqStable(d, d', src.orderedConnected);
    TranslationStable(d, d', src.parent);
    TranslateSetStable(d, d', src.children);
    TranslateSetStable(d, d', src.loopEdges);
  }

  /** Every client pointer the keyframes of `kfs` reference. */
  function ReferencedAll(kfs: seq<KeyFrame<ClientRef>>): set<ClientRef>
  {
    if kfs == [] then {} else ReferencedAll(kfs[..|kfs| - 1]) + Referenced(kfs[|kfs| - 1])
  }

  lemma ReferencedAllStep(kfs: seq<KeyFrame<ClientRef>>, j: nat)
    requires j < |kfs|
    ensures ReferencedAll(kfs[..j + 1]) == ReferencedAll(kfs[..j]) + Referenced(kfs[j])
  {
    assert kfs[..j + 1][..j] == kfs[..j];
  }

  /** No link of the keyframe is `nullptr` (its parent aside). */
  ghost predicate LinksNonNull(kf: KeyFrame<Ref>)
  {
    && Null !in kf.connectedWeights && Null !in kf.orderedConnected
    && Null !in kf.children && Null !in kf.loopEdges
  }

  /**
   * Translation never fails when every pointer the keyframe references is
   * registered to a global keyframe: the lookups add no dictionary entry,
   * no copied link is `nullptr`, and the global keyframe has a parent when
   * the source has one.
   */
  lemma RegisteredLinksNonNull(kf: KeyFrame<Ref>, src: KeyFrame<ClientRef>, order: seq<ClientRef>, d: map<ClientRef, Ref>)
    requires forall i :: 0 <= i < |order| ==> order[i] in src.connectedWeights
    requires forall k :: k in Referenced(src) ==> k in d && d[k].Ref?
    requires LinksNonNull(kf)
    ensures Touched(d, Referenced(src)) == d
    ensures LinksNonNull(Connected(kf, src, order, d))
    ensures Connected(kf, src, order, d).parent.Ref? <==> src.parent != ClientNull || kf.parent.Ref?
  {
    TouchedRegistered(d, Referenced(src));
    var r := Connected(kf, src, order, d);
    WeightsAfterKeys(kf.connectedWeights, src.connectedWeights, order, d);
    assert Null !in TranslateSeq(d, order) by {
      forall i | 0 <= i < |order| ensures Translated(d, order[i]).Ref? {
        assert order[i] in Referenced(src);
      }
    }
    assert Null !in TranslateSeq(d, src.orderedConnected) by {
      forall i | 0 <= i < |src.orderedConnected| ensures Translated(d, src.orderedConnected[i]).Ref? {
        assert src.orderedConnected[i] in Elements(src.orderedConnected);
      }
    }
    TranslateSetMeaning(d, src.children);
    TranslateSetMeaning(d, src.loopEdges);
    if src.parent != ClientNull {
      assert src.parent in Referenced(src);
    }
  }

  /** Every pointer the keyframes of client `c` reference is one of that client's keyframes. */
  ghost predicate ClosedLinks(clients: seq<ClientMap>, c: nat)
    requires c < |clients|
  {
    forall j, k :: 0 <= j < |clients[c].keyFrames| && k in Referenced(clients[c].keyFrames[j]) ==>
      k.ClientRef? && k.client == c && k.index < |clients[c].keyFrames|
  }
}
