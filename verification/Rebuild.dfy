// What build_tree makes of a set of known nodes and the helper nodes they
// need: the core argument behind commits, proofs and verification.
module Rebuild {
  import opened Wrappers
  import opened Hashing
  import opened Indices
  import opened Layers
  import opened PartialTrees
  import opened CanonicalTree

  // The layer holds exactly the known nodes and the siblings they lack.
  ghost predicate Ready(layer: Layer, known: seq<nat>, width: nat) {
    && Distinct(IndicesOf(layer))
    && forall x: nat :: x in IndicesOf(layer) <==> x in known || x in HelperIndices(known, width)
  }

  // Every tuple of the layer carries the hash that `nodes` has at its index.
  ghost predicate Agrees(layer: Layer, nodes: seq<Digest>) {
    forall node :: node in layer ==> Correct(node, nodes)
  }

  ghost predicate Correct(node: Node, nodes: seq<Digest>) {
    node.index < |nodes| && node.hash == nodes[node.index]
  }

  ghost function Pick(nodes: seq<Digest>, indices: seq<nat>): Layer
    requires Below(indices, |nodes|)
  {
    seq(|indices|, i requires 0 <= i < |indices| => Node(indices[i], nodes[indices[i]]))
  }

  lemma AgreeingIsPicked(layer: Layer, nodes: seq<Digest>)
    requires Agrees(layer, nodes)
    ensures Below(IndicesOf(layer), |nodes|) && layer == Pick(nodes, IndicesOf(layer))
  {
    forall i | 0 <= i < |layer| ensures layer[i].index < |nodes| && layer[i].hash == nodes[layer[i].index] {
      assert layer[i] in layer;
    }
  }

  lemma PickedAgrees(nodes: seq<Digest>, indices: seq<nat>)
    requires Below(indices, |nodes|)
    ensures Agrees(Pick(nodes, indices), nodes) && IndicesOf(Pick(nodes, indices)) == indices
  {
  }

  // One round of build_tree starts by sorting: the result is the children of
  // the known nodes' parents.
  lemma SortedRound(layer: Layer, known: seq<nat>, width: nat)
    requires Increasing(known) && Below(known, width)
    requires Ready(layer, known, width)
    ensures IsParentList(ParentIndices(known), width)
    ensures IndicesOf(SortByIndex(layer)) == Children(ParentIndices(known), width)
  {
    var s, parents := SortByIndex(layer), ParentIndices(known);
    ParentIndicesOfIncreasing(known, width);
    ChildrenElements(parents, width);
    NodesAndHelpers(known, width);
    SortDistinct(layer);
    SameElements(IndicesOf(s), Children(parents, width));
  }

  // The hash build_tree computes for position i of the next layer.
  ghost function PairHash(h: Hasher, s: Layer, i: nat): Digest
    requires 2 * i < |s|
  {
    ConcatAndHash(h, s[2 * i].hash, if 2 * i + 1 < |s| then Some(s[2 * i + 1].hash) else None)
  }

  ghost predicate NextOf(h: Hasher, s: Layer, parents: seq<nat>, next: Layer) {
    && |next| == |parents|
    && forall i :: 0 <= i < |next| ==>
        next[i].index == parents[i] && 2 * i < |s| && next[i].hash == PairHash(h, s, i)
  }

  // ... and goes on with exactly these parents, never lacking a helper node.
  lemma ParentsRound(h: Hasher, s: Layer, parents: seq<nat>, width: nat) returns (next: Layer)
    requires IsParentList(parents, width) && IndicesOf(s) == Children(parents, width)
    ensures NextLayer(h, s) == Ok(next) && NextOf(h, s, parents, next)
    ensures IndicesOf(next) == parents
  {
    ParentsOfChildren(parents, width);
    assert |s| == |IndicesOf(s)| == |HashesOf(s)|;
    forall i | 0 <= i < |parents| ensures 2 * i < |s| {
      ChildrenShape(parents, width, i);
    }
    next := AllParents(h, parents, s, 0);
    assert parents[0..] == parents;
  }

  lemma {:induction false} AllParents(h: Hasher, parents: seq<nat>, s: Layer, i: nat) returns (next: Layer)
    requires i <= |parents|
    requires forall j :: i <= j < |parents| ==> 2 * j < |s|
    ensures ParentNodesFrom(h, parents, HashesOf(s), i) == Ok(next)
    ensures |next| == |parents| - i
    ensures forall j :: 0 <= j < |next| ==>
              next[j].index == parents[i + j] && 2 * (i + j) < |s| && next[j].hash == PairHash(h, s, i + j)
    decreases |parents| - i
  {
    if i == |parents| {
      next := [];
    } else {
      var rest := AllParents(h, parents, s, i + 1);
      next := [Node(parents[i], PairHash(h, s, i))] + rest;
      assert GetNode(HashesOf(s), 2 * i) == Some(s[2 * i].hash);
      forall j | 0 <= j < |next|
        ensures next[j].index == parents[i + j] && 2 * (i + j) < |s| && next[j].hash == PairHash(h, s, i + j)
      {
        if j > 0 {
          assert next[j] == rest[j - 1];
          assert i + j == (i + 1) + (j - 1);
        }
      }
    }
  }

  // The children of parent i in the sorted layer of a round: same positions,
  // and a right child exactly when the full layer has one.
  lemma RoundPair(s: Layer, parents: seq<nat>, width: nat, i: nat)
    requires IsParentList(parents, width) && i < |parents|
    requires IndicesOf(s) == Children(parents, width)
    ensures 2 * i < |s| && s[2 * i].index == 2 * parents[i]
    ensures 2 * i + 1 < |s| <==> 2 * parents[i] + 1 < width
    ensures 2 * i + 1 < |s| ==> s[2 * i + 1].index == 2 * parents[i] + 1
  {
    ChildrenShape(parents, width, i);
    var idx := IndicesOf(s);
    assert |idx| == |s|;
    assert s[2 * i].index == idx[2 * i];
    assert 2 * i + 1 < |s| ==> s[2 * i + 1].index == idx[2 * i + 1];
  }

  // A round turns correct nodes into correct parents.
  lemma ParentsAgree(h: Hasher, s: Layer, parents: seq<nat>, next: Layer, nodes: seq<Digest>)
    requires IsParentList(parents, |nodes|) && IndicesOf(s) == Children(parents, |nodes|)
    requires NextOf(h, s, parents, next)
    requires Agrees(s, nodes)
    ensures Agrees(next, ParentLayer(h, nodes))
  {
    forall i | 0 <= i < |next| ensures Correct(next[i], ParentLayer(h, nodes)) {
      hide Children, IndicesOf, Correct, ParentLayer;
      RoundPair(s, parents, |nodes|, i);
      assert s[2 * i] in s;
      assert 2 * i + 1 < |s| ==> s[2 * i + 1] in s;
      ParentIsCorrect(h, s, nodes, i, parents[i], next[i]);
    }
  }

  lemma ParentIsCorrect(h: Hasher, s: Layer, nodes: seq<Digest>, i: nat, p: nat, parent: Node)
    requires 2 * i < |s| && s[2 * i].index == 2 * p && Correct(s[2 * i], nodes)
    requires 2 * i + 1 < |s| <==> 2 * p + 1 < |nodes|
    requires 2 * i + 1 < |s| ==> s[2 * i + 1].index == 2 * p + 1 && Correct(s[2 * i + 1], nodes)
    requires parent == Node(p, PairHash(h, s, i))
    ensures Correct(parent, ParentLayer(h, nodes))
  {
    assert ParentLayer(h, nodes)[p] == ParentHash(h, nodes, p);
  }

  // Everything the proofs below need to know about one round.
  lemma OneRound(h: Hasher, layer: Layer, known: seq<nat>, nodes: seq<Digest>) returns (s: Layer, next: Layer)
    requires Increasing(known) && Below(known, |nodes|)
    requires Ready(layer, known, |nodes|)
    ensures s == SortByIndex(layer) && NextLayer(h, s) == Ok(next)
    ensures IsParentList(ParentIndices(known), |nodes|)
    ensures IndicesOf(s) == Children(ParentIndices(known), |nodes|)
    ensures IndicesOf(next) == ParentIndices(known)
    ensures Agrees(layer, nodes) ==> Agrees(s, nodes) && Agrees(next, ParentLayer(h, nodes))
    ensures Agrees(next, ParentLayer(h, nodes)) ==> Agrees(layer, nodes) || CollisionInLayer(h, s, nodes)
  {
    s := SortByIndex(layer);
    var parents := ParentIndices(known);
    SortedRound(layer, known, |nodes|);
    SortElements(layer);
    assert Agrees(s, nodes) <==> Agrees(layer, nodes);
    next := ParentsRound(h, s, parents, |nodes|);
    if Agrees(s, nodes) {
      ParentsAgree(h, s, parents, next, nodes);
    } else if Agrees(next, ParentLayer(h, nodes)) {
      RoundIsSound(h, s, parents, next, nodes);
    }
  }

  lemma BuildUnfold(h: Hasher, current: Layer, pending: seq<Layer>, rounds: nat, s: Layer, next: Layer,
      tail: seq<Layer>)
    requires rounds > 0
    requires s == SortByIndex(current + FirstLayer(pending)) && NextLayer(h, s) == Ok(next)
    requires BuildLayers(h, next, RestOfLayers(pending), rounds - 1) == Ok(tail)
    ensures BuildLayers(h, current, pending, rounds) == Ok([s] + tail)
  {
  }

  lemma BuildTail(h: Hasher, current: Layer, pending: seq<Layer>, rounds: nat, s: Layer, next: Layer,
      rebuilt: seq<Layer>)
    requires rounds > 0
    requires s == SortByIndex(current + FirstLayer(pending)) && NextLayer(h, s) == Ok(next)
    requires BuildLayers(h, current, pending, rounds) == Ok(rebuilt)
    ensures rebuilt != [] && rebuilt[0] == s
    ensures BuildLayers(h, next, RestOfLayers(pending), rounds - 1) == Ok(rebuilt[1..])
  {
    var tail := BuildLayers(h, next, RestOfLayers(pending), rounds - 1).value;
    assert rebuilt == [s] + tail && rebuilt[1..] == tail;
  }

  // ----- completeness: correct inputs rebuild the correct tree -----

  // The helper layers after the first one are what the known nodes lack, with
  // correct hashes; layers that are missing are not needed.
  ghost predicate HelpersSuffice(h: Hasher, helpers: seq<Layer>, nodes: seq<Digest>, known: seq<nat>, rounds: nat)
    decreases rounds
  {
    rounds == 0
    || (&& IndicesOf(FirstLayer(helpers)) == HelperIndices(known, |nodes|)
        && Agrees(FirstLayer(helpers), nodes)
        && HelpersSuffice(h, RestOfLayers(helpers), ParentLayer(h, nodes), ParentIndices(known), rounds - 1))
  }

  // The part of the full tree over `nodes` that the known nodes determine.
  ghost function KnownPart(h: Hasher, nodes: seq<Digest>, known: seq<nat>, rounds: nat): seq<Layer>
    requires Increasing(known) && Below(known, |nodes|)
    decreases rounds
  {
    if rounds == 0 then [Pick(nodes, known)]
    else
      ParentIndicesOfIncreasing(known, |nodes|);
      ChildrenElements(ParentIndices(known), |nodes|);
      [Pick(nodes, Children(ParentIndices(known), |nodes|))]
      + KnownPart(h, ParentLayer(h, nodes), ParentIndices(known), rounds - 1)
  }

  lemma KnownPartUnfold(h: Hasher, nodes: seq<Digest>, known: seq<nat>, rounds: nat)
    requires Increasing(known) && Below(known, |nodes|) && rounds > 0
    ensures IsParentList(ParentIndices(known), |nodes|) && |ParentLayer(h, nodes)| == DivCeil(|nodes|, 2)
    ensures Below(ParentIndices(known), |ParentLayer(h, nodes)|) && Increasing(ParentIndices(known))
    ensures Below(Children(ParentIndices(known), |nodes|), |nodes|)
    ensures KnownPart(h, nodes, known, rounds)
         == [Pick(nodes, Children(ParentIndices(known), |nodes|))]
            + KnownPart(h, ParentLayer(h, nodes), ParentIndices(known), rounds - 1)
  {
    ParentIndicesOfIncreasing(known, |nodes|);
    ChildrenElements(ParentIndices(known), |nodes|);
  }

  lemma NoRoundsLeft(h: Hasher, current: Layer, pending: seq<Layer>, nodes: seq<Digest>, known: seq<nat>)
    requires Increasing(known) && Below(known, |nodes|)
    ensures BuildLayers(h, current, pending, 0) == Ok([current])
    ensures KnownPart(h, nodes, known, 0) == [Pick(nodes, known)]
    ensures KnownAbove(known, 0) == known
  {
  }

  lemma SufficeParts(h: Hasher, helpers: seq<Layer>, nodes: seq<Digest>, known: seq<nat>, rounds: nat)
    requires rounds > 0 && HelpersSuffice(h, helpers, nodes, known, rounds)
    ensures IndicesOf(FirstLayer(helpers)) == HelperIndices(known, |nodes|)
    ensures Agrees(FirstLayer(helpers), nodes)
    ensures HelpersSuffice(h, RestOfLayers(helpers), ParentLayer(h, nodes), ParentIndices(known), rounds - 1)
  {
  }

  // A correct round: the sorted layer and the next one are the picked nodes.
  lemma CorrectRound(h: Hasher, layer: Layer, known: seq<nat>, nodes: seq<Digest>) returns (s: Layer, next: Layer)
    requires Increasing(known) && Below(known, |nodes|)
    requires Ready(layer, known, |nodes|) && Agrees(layer, nodes)
    ensures s == SortByIndex(layer) && NextLayer(h, s) == Ok(next)
    ensures IsParentList(ParentIndices(known), |nodes|)
    ensures Below(Children(ParentIndices(known), |nodes|), |nodes|)
        && s == Pick(nodes, Children(ParentIndices(known), |nodes|))
    ensures Agrees(next, ParentLayer(h, nodes)) && IndicesOf(next) == ParentIndices(known)
    ensures next == Pick(ParentLayer(h, nodes), ParentIndices(known))
  {
    hide *;
    s, next := OneRound(h, layer, known, nodes);
    AgreeingIsPicked(s, nodes);
    AgreeingIsPicked(next, ParentLayer(h, nodes));
  }

  lemma {:induction false} BuildIsKnownPart(h: Hasher, current: Layer, pending: seq<Layer>, nodes: seq<Digest>,
                                            known: seq<nat>, rounds: nat)
    requires Increasing(known) && Below(known, |nodes|)
    requires rounds > 0 ==>
               && Ready(current + FirstLayer(pending), known, |nodes|)
               && Agrees(current + FirstLayer(pending), nodes)
               && HelpersSuffice(h, RestOfLayers(pending), ParentLayer(h, nodes), ParentIndices(known), rounds - 1)
    requires rounds == 0 ==> current == Pick(nodes, known)
    ensures BuildLayers(h, current, pending, rounds) == Ok(KnownPart(h, nodes, known, rounds))
    decreases rounds
  {
    hide *;
    if rounds == 0 {
      NoRoundsLeft(h, current, pending, nodes, known);
    } else {
      var parents, above, rest := ParentIndices(known), ParentLayer(h, nodes), RestOfLayers(pending);
      KnownPartUnfold(h, nodes, known, rounds);
      var s, next := CorrectRound(h, current + FirstLayer(pending), known, nodes);
      if rounds > 1 {
        SufficeParts(h, rest, above, parents, rounds - 1);
        ReadyFromParts(next, FirstLayer(rest), parents, |above|);
        AgreesConcat(next, FirstLayer(rest), above);
      }
      BuildIsKnownPart(h, next, rest, above, parents, rounds - 1);
      BuildUnfold(h, current, pending, rounds, s, next, KnownPart(h, above, parents, rounds - 1));
    }
  }

  lemma AgreesConcat(a: Layer, b: Layer, nodes: seq<Digest>)
    requires Agrees(a, nodes) && Agrees(b, nodes)
    ensures Agrees(a + b, nodes)
  {
  }

  lemma ReadyFromParts(current: Layer, helpers: Layer, known: seq<nat>, width: nat)
    requires Increasing(known) && Below(known, width)
    requires IndicesOf(current) == known
    requires IndicesOf(helpers) == HelperIndices(known, width)
    ensures Ready(current + helpers, known, width)
  {
    hide HelperIndices;
    IndicesConcat(current, helpers);
    HelperElements(known, width);
    DistinctConcat(known, HelperIndices(known, width));
  }

  // The order of the first layer does not matter for Ready and Agrees.
  lemma SortedIsReady(layer: Layer, known: seq<nat>, nodes: seq<Digest>)
    requires Ready(layer, known, |nodes|) && Agrees(layer, nodes)
    ensures Ready(SortByIndex(layer), known, |nodes|) && Agrees(SortByIndex(layer), nodes)
  {
    SortDistinct(layer);
    SortElements(layer);
  }

  // ----- soundness: a correct root forces correct inputs -----

  // Two siblings of the rebuilt layer that differ from the pair at the same
  // place of the full layer, although both pairs hash to the same parent.
  ghost predicate CollidingPair(h: Hasher, l: Node, r: Node, nodes: seq<Digest>) {
    && l.index % 2 == 0 && r.index == l.index + 1 < |nodes|
    && Collide(h, l.hash.bytes + r.hash.bytes, nodes[l.index].bytes + nodes[r.index].bytes)
  }

  ghost predicate CollisionInLayer(h: Hasher, rebuilt: Layer, nodes: seq<Digest>) {
    exists l, r :: l in rebuilt && r in rebuilt && CollidingPair(h, l, r, nodes)
  }

  ghost predicate CollisionInTree(h: Hasher, rebuilt: seq<Layer>, nodes: seq<Digest>)
    decreases |rebuilt|
  {
    |rebuilt| > 1
    && (CollisionInLayer(h, rebuilt[0], nodes) || CollisionInTree(h, rebuilt[1..], ParentLayer(h, nodes)))
  }

  // One pair: a correct parent has correct children, or there is a collision.
  lemma PairIsSound(h: Hasher, s: Layer, nodes: seq<Digest>, i: nat, p: nat)
    requires 2 * i < |s| && s[2 * i].index == 2 * p < |nodes|
    requires 2 * i + 1 < |s| <==> 2 * p + 1 < |nodes|
    requires 2 * i + 1 < |s| ==> s[2 * i + 1].index == 2 * p + 1
    requires PairHash(h, s, i) == ParentHash(h, nodes, p)
    ensures CollisionInLayer(h, s, nodes)
         || (Correct(s[2 * i], nodes) && (2 * i + 1 < |s| ==> Correct(s[2 * i + 1], nodes)))
  {
    if 2 * i + 1 < |s| {
      var l, r := s[2 * i], s[2 * i + 1];
      EqualParents(h, l.hash, Some(r.hash), nodes[2 * p], Some(nodes[2 * p + 1]));
      assert l in s && r in s;
      assert CollidingPair(h, l, r, nodes) ==> CollisionInLayer(h, s, nodes);
    }
  }

  lemma PositionIsSound(h: Hasher, s: Layer, parents: seq<nat>, next: Layer, nodes: seq<Digest>, k: nat)
    requires IsParentList(parents, |nodes|) && IndicesOf(s) == Children(parents, |nodes|)
    requires NextOf(h, s, parents, next)
    requires Agrees(next, ParentLayer(h, nodes))
    requires k < |s|
    ensures CollisionInLayer(h, s, nodes) || Correct(s[k], nodes)
  {
    hide *;
    var i := k / 2;
    ParentOfPosition(s, parents, |nodes|, k);
    RoundPair(s, parents, |nodes|, i);
    NextUnfold(h, s, parents, next, nodes, i);
    PairIsSound(h, s, nodes, i, parents[i]);
    assert k == 2 * i || k == 2 * i + 1;
  }

  lemma NextUnfold(h: Hasher, s: Layer, parents: seq<nat>, next: Layer, nodes: seq<Digest>, i: nat)
    requires IsParentList(parents, |nodes|) && i < |parents|
    requires NextOf(h, s, parents, next)
    requires Agrees(next, ParentLayer(h, nodes))
    ensures 2 * parents[i] < |nodes| && 2 * i < |s|
    ensures PairHash(h, s, i) == ParentHash(h, nodes, parents[i])
  {
    assert next[i] in next;
    assert ParentLayer(h, nodes)[parents[i]] == ParentHash(h, nodes, parents[i]);
  }

  lemma RoundIsSound(h: Hasher, s: Layer, parents: seq<nat>, next: Layer, nodes: seq<Digest>)
    requires IsParentList(parents, |nodes|) && IndicesOf(s) == Children(parents, |nodes|)
    requires NextOf(h, s, parents, next)
    requires Agrees(next, ParentLayer(h, nodes))
    ensures Agrees(s, nodes) || CollisionInLayer(h, s, nodes)
  {
    hide IsParentList, IndicesOf, Children, NextOf, ParentLayer, CollisionInLayer, Correct;
    if !CollisionInLayer(h, s, nodes) {
      forall k | 0 <= k < |s| ensures Correct(s[k], nodes) {
        PositionIsSound(h, s, parents, next, nodes, k);
      }
    }
  }

  lemma ParentOfPosition(s: Layer, parents: seq<nat>, width: nat, k: nat)
    requires IsParentList(parents, width) && k < |s|
    requires IndicesOf(s) == Children(parents, width)
    ensures k / 2 < |parents|
  {
    assert |s| == |Children(parents, width)|;
    assert parents != [];
    ChildrenShape(parents, width, 0);
  }

  // Helper layers with the right indices and any hashes.
  ghost predicate IndexedHelpers(helpers: seq<Layer>, known: seq<nat>, width: nat, rounds: nat)
    decreases rounds
  {
    rounds == 0
    || (&& IndicesOf(FirstLayer(helpers)) == HelperIndices(known, width)
        && IndexedHelpers(RestOfLayers(helpers), ParentIndices(known), DivCeil(width, 2), rounds - 1))
  }

  lemma LowerLayer(h: Hasher, layer: Layer, next: Layer, helpers: Layer, nodes: seq<Digest>, rebuilt: seq<Layer>)
    requires |rebuilt| > 1
    requires Agrees(next, ParentLayer(h, nodes)) ==> Agrees(layer, nodes) || CollisionInLayer(h, rebuilt[0], nodes)
    requires Agrees(next + helpers, ParentLayer(h, nodes)) || CollisionInTree(h, rebuilt[1..], ParentLayer(h, nodes))
    ensures Agrees(layer, nodes) || CollisionInTree(h, rebuilt, nodes)
  {
    if Agrees(next + helpers, ParentLayer(h, nodes)) {
      assert forall node :: node in next ==> node in next + helpers;
    }
  }

  // The first of several rounds, seen from its output.
  lemma FirstRound(h: Hasher, current: Layer, pending: seq<Layer>, nodes: seq<Digest>, known: seq<nat>, rounds: nat,
                   rebuilt: seq<Layer>) returns (next: Layer)
    requires Increasing(known) && Below(known, |nodes|)
    requires rounds > 0
    requires Ready(current + FirstLayer(pending), known, |nodes|)
    requires BuildLayers(h, current, pending, rounds) == Ok(rebuilt)
    ensures Increasing(ParentIndices(known)) && Below(ParentIndices(known), |ParentLayer(h, nodes)|)
    ensures |ParentLayer(h, nodes)| == DivCeil(|nodes|, 2) && IndicesOf(next) == ParentIndices(known)
    ensures rebuilt != [] && BuildLayers(h, next, RestOfLayers(pending), rounds - 1) == Ok(rebuilt[1..])
    ensures Agrees(next, ParentLayer(h, nodes)) ==>
              Agrees(current + FirstLayer(pending), nodes) || CollisionInLayer(h, rebuilt[0], nodes)
  {
    var s;
    s, next := OneRound(h, current + FirstLayer(pending), known, nodes);
    BuildTail(h, current, pending, rounds, s, next, rebuilt);
  }

  // Rebuilding upwards: if the one node that is left in the end is the root,
  // then every node fed into the first round was correct, or the rebuilt
  // layers exhibit a collision with the full tree.
  lemma {:induction false} BuildIsSound(h: Hasher, current: Layer, pending: seq<Layer>, nodes: seq<Digest>,
                                        known: seq<nat>, rounds: nat, rebuilt: seq<Layer>)
    requires Increasing(known) && Below(known, |nodes|)
    requires rounds > 0
    requires Ready(current + FirstLayer(pending), known, |nodes|)
    requires IndexedHelpers(RestOfLayers(pending), ParentIndices(known), DivCeil(|nodes|, 2), rounds - 1)
    requires BuildLayers(h, current, pending, rounds) == Ok(rebuilt)
    requires |rebuilt| == rounds + 1 && Agrees(rebuilt[rounds], NodesAbove(h, nodes, rounds))
    ensures Agrees(current + FirstLayer(pending), nodes) || CollisionInTree(h, rebuilt, nodes)
    decreases rounds
  {
    hide *;
    var layer, rest, tail := current + FirstLayer(pending), RestOfLayers(pending), rebuilt[1..];
    var parents, above := ParentIndices(known), ParentLayer(h, nodes);
    var next := FirstRound(h, current, pending, nodes, known, rounds, rebuilt);
    assert rebuilt[rounds] == tail[rounds - 1];
    NodesAboveUnfold(h, nodes, rounds);
    if rounds == 1 {
      NoRoundsLeft(h, next, rest, above, parents);
      assert tail == [next] && next + [] == next;
      LowerLayer(h, layer, next, [], nodes, rebuilt);
    } else {
      IndexedParts(rest, parents, |above|, rounds - 1);
      ReadyFromParts(next, FirstLayer(rest), parents, |above|);
      BuildIsSound(h, next, rest, above, parents, rounds - 1, tail);
      LowerLayer(h, layer, next, FirstLayer(rest), nodes, rebuilt);
    }
  }

  lemma NodesAboveUnfold(h: Hasher, nodes: seq<Digest>, k: nat)
    requires k > 0
    ensures NodesAbove(h, nodes, k) == NodesAbove(h, ParentLayer(h, nodes), k - 1)
    ensures NodesAbove(h, ParentLayer(h, nodes), 0) == ParentLayer(h, nodes)
  {
  }

  lemma IndexedParts(helpers: seq<Layer>, known: seq<nat>, width: nat, rounds: nat)
    requires rounds > 0 && IndexedHelpers(helpers, known, width, rounds)
    ensures IndicesOf(FirstLayer(helpers)) == HelperIndices(known, width)
    ensures IndexedHelpers(RestOfLayers(helpers), ParentIndices(known), DivCeil(width, 2), rounds - 1)
  {
  }

  // With the right indices a rebuild never runs out of helper nodes.
  lemma {:induction false} BuildSucceeds(h: Hasher, current: Layer, pending: seq<Layer>, known: seq<nat>, width: nat,
                                         rounds: nat) returns (rebuilt: seq<Layer>)
    requires Increasing(known) && Below(known, width)
    requires rounds > 0 ==>
               && Ready(current + FirstLayer(pending), known, width)
               && IndexedHelpers(RestOfLayers(pending), ParentIndices(known), DivCeil(width, 2), rounds - 1)
    requires rounds == 0 ==> IndicesOf(current) == known
    ensures BuildLayers(h, current, pending, rounds) == Ok(rebuilt)
    ensures |rebuilt| == rounds + 1
    ensures IndicesOf(rebuilt[rounds]) == KnownAbove(known, rounds)
    decreases rounds
  {
    hide *;
    if rounds == 0 {
      rebuilt := [current];
      NothingLeftToBuild(h, current, pending, known);
    } else {
      var layer, parents, above := current + FirstLayer(pending), ParentIndices(known), DivCeil(width, 2);
      var s, rest := SortByIndex(layer), RestOfLayers(pending);
      SortedRound(layer, known, width);
      ParentListUnfold(parents, width);
      var next := ParentsRound(h, s, parents, width);
      if rounds > 1 {
        IndexedParts(rest, parents, above, rounds - 1);
        ReadyFromParts(next, FirstLayer(rest), parents, above);
      }
      var tail := BuildSucceeds(h, next, rest, parents, above, rounds - 1);
      rebuilt := [s] + tail;
      BuildUnfold(h, current, pending, rounds, s, next, tail);
      KnownAboveUnfold(known, rounds);
    }
  }

  lemma NothingLeftToBuild(h: Hasher, current: Layer, pending: seq<Layer>, known: seq<nat>)
    ensures BuildLayers(h, current, pending, 0) == Ok([current])
    ensures KnownAbove(known, 0) == known
  {
  }

  lemma ParentListUnfold(parents: seq<nat>, width: nat)
    requires IsParentList(parents, width)
    ensures Increasing(parents) && Below(parents, DivCeil(width, 2))
  {
  }

  lemma KnownAboveUnfold(known: seq<nat>, k: nat)
    requires k > 0
    ensures KnownAbove(known, k) == KnownAbove(ParentIndices(known), k - 1)
  {
  }

  ghost function KnownAbove(known: seq<nat>, k: nat): seq<nat>
    decreases k
  {
    if k == 0 then known else KnownAbove(ParentIndices(known), k - 1)
  }

  // At the depth of the tree the known nodes have shrunk to the root.
  lemma {:induction false} KnownAboveIsRoot(known: seq<nat>, n: nat, k: nat, d: nat)
    requires known != [] && Increasing(known) && Below(known, Width(n, k))
    requires k <= d && Width(n, d) == 1
    ensures KnownAbove(known, d - k) == [0]
    decreases d - k
  {
    if k == d {
      IncreasingIsShort(known, 1);
      assert known == [0];
    } else {
      ParentIndicesOfIncreasing(known, Width(n, k));
      KnownAboveIsRoot(ParentIndices(known), n, k + 1, d);
    }
  }
}
