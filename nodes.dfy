/**
 * The graph nodes `parseQCIRFile` builds, as values: what each node stands for, the file
 * ids it lists, and the bookkeeping facts the builder keeps about them. The builder
 * itself, which changes these values step by step, is module Circuit.
 */
module Nodes {

  /** `VarType`: a literal of a quantified variable, an and gate, an or gate or a NOT node. */
  datatype VarType = VarGate | AndGate | OrGate | NotGate

  /** `Gate`: the file id a node stands for, the file ids it is connected to, and its type. */
  datatype Gate = Gate(fileVarId: int, adj: seq<int>, kind: VarType)

  /** `fileToGraphMap[id]` outside `find`: `operator[]` yields 0 for an id that was never mapped. */
  function Lookup(m: map<int, int>, id: int): int
  {
    if id in m then m[id] else 0
  }

  /** `gates[i].adj.push_back(id)`. */
  function AddEdge(gates: seq<Gate>, i: nat, id: int): seq<Gate>
    requires i < |gates|
  {
    gates[i := gates[i].(adj := gates[i].adj + [id])]
  }

  /** `adjToAdd[key].push_back(id)`, where `operator[]` starts a missing key with an empty list. */
  function Queue(pending: map<int, seq<int>>, key: int, id: int): map<int, seq<int>>
  {
    pending[key := (if key in pending then pending[key] else []) + [id]]
  }

  /** The file id of every node, in node order. */
  function IdsOf(gates: seq<Gate>): (ids: seq<int>)
    ensures |ids| == |gates|
    ensures forall i :: 0 <= i < |gates| ==> ids[i] == gates[i].fileVarId
  {
    seq(|gates|, i requires 0 <= i < |gates| => gates[i].fileVarId)
  }

  /** The type of every node, in node order. */
  function KindsOf(gates: seq<Gate>): (kinds: seq<VarType>)
    ensures |kinds| == |gates|
    ensures forall i :: 0 <= i < |gates| ==> kinds[i] == gates[i].kind
  {
    seq(|gates|, i requires 0 <= i < |gates| => gates[i].kind)
  }

  /** Adding an edge changes no node's id or type. */
  lemma AddEdgeKeepsNodes(gates: seq<Gate>, i: nat, id: int)
    requires i < |gates|
    ensures IdsOf(AddEdge(gates, i, id)) == IdsOf(gates)
    ensures KindsOf(AddEdge(gates, i, id)) == KindsOf(gates)
  {
  }

  /** Appending a node appends its id and its type. */
  lemma AppendNode(gates: seq<Gate>, g: Gate)
    ensures IdsOf(gates + [g]) == IdsOf(gates) + [g.fileVarId]
    ensures KindsOf(gates + [g]) == KindsOf(gates) + [g.kind]
  {
  }

  /** The variables of the color classes, class after class. */
  function Flatten(classes: seq<seq<int>>): seq<int>
  {
    if classes == [] then [] else Flatten(classes[..|classes| - 1]) + classes[|classes| - 1]
  }

  /** Adding a variable to the last class adds it at the end of the flattened classes. */
  lemma FlattenPush(classes: seq<seq<int>>, v: int)
    requires |classes| > 0
    ensures Flatten(classes[|classes| - 1 := classes[|classes| - 1] + [v]]) == Flatten(classes) + [v]
  {
    var last := |classes| - 1;
    assert classes[last := classes[last] + [v]][..last] == classes[..last];
  }

  /** Opening an empty class leaves the flattened classes as they were. */
  lemma FlattenOpen(classes: seq<seq<int>>)
    ensures Flatten(classes + [[]]) == Flatten(classes)
  {
    assert (classes + [[]])[..|classes|] == classes;
  }

  // The bookkeeping facts about the nodes, each on the ids and types alone.

  /** Every mapped id leads to a node that stands for that id. */
  predicate MapOwned(ids: seq<int>, m: map<int, int>)
  {
    forall id :: id in m ==> 0 <= m[id] < |ids| && ids[m[id]] == id
  }

  /** The id of every node is mapped (to that node, or to a later node with the same id). */
  predicate OwnersMapped(ids: seq<int>, m: map<int, int>)
  {
    forall i :: 0 <= i < |ids| ==> ids[i] in m
  }

  /** NOT nodes stand for negative ids, and no two NOT nodes stand for the same id. */
  predicate NotNodesDistinct(ids: seq<int>, kinds: seq<VarType>)
    requires |ids| == |kinds|
  {
    && (forall i :: 0 <= i < |ids| && kinds[i] == NotGate ==> ids[i] < 0)
    && (forall i, j :: 0 <= i < j < |ids| && kinds[i] == NotGate && kinds[j] == NotGate ==> ids[i] != ids[j])
  }

  /**
   * The first `numVars` nodes are the literal pairs `v`, `-v` of the declared variables in
   * declaration order, and no later node is a literal.
   */
  predicate LiteralLayout(ids: seq<int>, kinds: seq<VarType>, numVars: nat, classes: seq<seq<int>>)
    requires |ids| == |kinds|
  {
    var vars := Flatten(classes);
    && numVars == 2 * |vars| && numVars <= |ids|
    && (forall t :: 0 <= t < |vars| ==> ids[2 * t] == vars[t] && ids[2 * t + 1] == -vars[t])
    && (forall i :: 0 <= i < numVars ==> kinds[i] == VarGate)
    && (forall i :: numVars <= i < |ids| ==> kinds[i] != VarGate)
  }

  /** Every queued key leads to a node, mapped or not. */
  predicate PendingTargets(size: nat, m: map<int, int>, pending: map<int, seq<int>>)
  {
    forall key :: key in pending ==> 0 <= Lookup(m, key) < size
  }

  // Adjacency at the level of file ids.

  /**
   * `y` is listed for `x`: a node standing for `x` has `y` in its adjacency, or `y` is
   * queued as a back-edge for `x`.
   */
  ghost predicate Listed(gates: seq<Gate>, pending: map<int, seq<int>>, x: int, y: int)
  {
    || (exists i :: 0 <= i < |gates| && gates[i].fileVarId == x && y in gates[i].adj)
    || (x in pending && y in pending[x])
  }

  /** Whatever is listed for `x` has `x` listed for it in turn. */
  ghost predicate ListingSymmetric(gates: seq<Gate>, pending: map<int, seq<int>>)
  {
    forall x, y :: Listed(gates, pending, x, y) ==> Listed(gates, pending, y, x)
  }

  lemma ListedAppend(gates: seq<Gate>, pending: map<int, seq<int>>, g: Gate, x: int, y: int)
    ensures Listed(gates + [g], pending, x, y) <==>
      Listed(gates, pending, x, y) || (x == g.fileVarId && y in g.adj)
  {
    var gs := gates + [g];
    if x == g.fileVarId && y in g.adj {
      assert gs[|gates|] == g;
    }
    if exists i :: 0 <= i < |gates| && gates[i].fileVarId == x && y in gates[i].adj {
      var i :| 0 <= i < |gates| && gates[i].fileVarId == x && y in gates[i].adj;
      assert gs[i] == gates[i];
    }
  }

  lemma ListedAddEdge(gates: seq<Gate>, pending: map<int, seq<int>>, k: nat, id: int, x: int, y: int)
    requires k < |gates|
    ensures Listed(AddEdge(gates, k, id), pending, x, y) <==>
      Listed(gates, pending, x, y) || (x == gates[k].fileVarId && y == id)
  {
    var gs := AddEdge(gates, k, id);
    if x == gates[k].fileVarId && y == id {
      assert y in gs[k].adj;
    }
    if exists i :: 0 <= i < |gates| && gates[i].fileVarId == x && y in gates[i].adj {
      var i :| 0 <= i < |gates| && gates[i].fileVarId == x && y in gates[i].adj;
      assert y in gs[i].adj;
    }
  }

  lemma ListedQueue(gates: seq<Gate>, pending: map<int, seq<int>>, key: int, id: int, x: int, y: int)
    ensures Listed(gates, Queue(pending, key, id), x, y) <==>
      Listed(gates, pending, x, y) || (x == key && y == id)
  {
  }

  /** Listing one more symmetric set of pairs keeps the listing symmetric. */
  lemma SymmetricGrows(gates: seq<Gate>, pending: map<int, seq<int>>, gates': seq<Gate>, pending': map<int, seq<int>>, extra: set<(int, int)>)
    requires ListingSymmetric(gates, pending)
    requires forall p :: p in extra ==> (p.1, p.0) in extra
    requires forall x, y :: Listed(gates', pending', x, y) <==> Listed(gates, pending, x, y) || (x, y) in extra
    ensures ListingSymmetric(gates', pending')
  {
    forall x, y | Listed(gates', pending', x, y) ensures Listed(gates', pending', y, x) {
      if (x, y) in extra {
        assert (y, x) in extra;
      }
    }
  }

  // The facts the builder keeps, and the steps that keep them.

  /** All the bookkeeping facts about a builder state at once. */
  predicate Consistent(gates: seq<Gate>, m: map<int, int>, numVars: nat, classes: seq<seq<int>>, pending: map<int, seq<int>>)
  {
    var ids := IdsOf(gates);
    var kinds := KindsOf(gates);
    && MapOwned(ids, m) && OwnersMapped(ids, m)
    && NotNodesDistinct(ids, kinds)
    && LiteralLayout(ids, kinds, numVars, classes)
    && PendingTargets(|gates|, m, pending)
  }

  /** `storeVariable` keeps the facts: the pair `v`, `-v` is mapped to the two new literal nodes. */
  lemma StoreKeepsConsistent(gates: seq<Gate>, m: map<int, int>, numVars: nat, classes: seq<seq<int>>, pending: map<int, seq<int>>, v: int)
    requires Consistent(gates, m, numVars, classes, pending)
    requires |classes| > 0 && numVars == |gates|
    ensures Consistent(gates + [Gate(v, [-v], VarGate), Gate(-v, [v], VarGate)],
                       m[v := numVars][-v := numVars + 1], numVars + 2,
                       classes[|classes| - 1 := classes[|classes| - 1] + [v]], pending)
  {
    var gates' := gates + [Gate(v, [-v], VarGate), Gate(-v, [v], VarGate)];
    var m' := m[v := numVars][-v := numVars + 1];
    var classes' := classes[|classes| - 1 := classes[|classes| - 1] + [v]];
    assert IdsOf(gates') == IdsOf(gates) + [v, -v];
    assert KindsOf(gates') == KindsOf(gates) + [VarGate, VarGate];
    FlattenPush(classes, v);
    var vars := Flatten(classes);
    assert Flatten(classes') == vars + [v];
    assert LiteralLayout(IdsOf(gates'), KindsOf(gates'), numVars + 2, classes');
  }

  /** A new and/or node keeps the facts, the gate id now mapped to it. */
  lemma GateKeepsConsistent(gates: seq<Gate>, m: map<int, int>, numVars: nat, classes: seq<seq<int>>, pending: map<int, seq<int>>, g: Gate)
    requires Consistent(gates, m, numVars, classes, pending)
    requires g.kind == AndGate || g.kind == OrGate
    ensures Consistent(gates + [g], m[g.fileVarId := |gates|], numVars, classes, pending)
  {
    AppendNode(gates, g);
    AppendKeepsMap(IdsOf(gates), m, g.fileVarId);
    AppendKeepsLayout(IdsOf(gates), KindsOf(gates), numVars, classes, g.fileVarId, g.kind);
    var ids, kinds := IdsOf(gates + [g]), KindsOf(gates + [g]);
    forall i, j | 0 <= i < j < |ids| && kinds[i] == NotGate && kinds[j] == NotGate
      ensures ids[i] != ids[j]
    {
      assert j < |gates|;
    }
  }

  /** A NOT node for an unmapped id keeps the facts, the id now mapped to it. */
  lemma NotNodeKeepsConsistent(gates: seq<Gate>, m: map<int, int>, numVars: nat, classes: seq<seq<int>>, pending: map<int, seq<int>>, g: Gate)
    requires Consistent(gates, m, numVars, classes, pending)
    requires g.kind == NotGate && g.fileVarId < 0 && g.fileVarId !in m
    ensures Consistent(gates + [g], m[g.fileVarId := |gates|], numVars, classes, pending)
  {
    AppendNode(gates, g);
    AppendKeepsMap(IdsOf(gates), m, g.fileVarId);
    AppendKeepsLayout(IdsOf(gates), KindsOf(gates), numVars, classes, g.fileVarId, g.kind);
    var ids, kinds := IdsOf(gates + [g]), KindsOf(gates + [g]);
    forall i, j | 0 <= i < j < |ids| && kinds[i] == NotGate && kinds[j] == NotGate
      ensures ids[i] != ids[j]
    {
      if j == |gates| {
        assert ids[i] in m;
      }
    }
  }

  /** A node appended for `id`, with `id` mapped to it, keeps the map facts. */
  lemma AppendKeepsMap(ids: seq<int>, m: map<int, int>, id: int)
    requires MapOwned(ids, m) && OwnersMapped(ids, m)
    ensures MapOwned(ids + [id], m[id := |ids|]) && OwnersMapped(ids + [id], m[id := |ids|])
  {
  }

  /** A node appended after the literals, and not a literal itself, keeps the layout. */
  lemma AppendKeepsLayout(ids: seq<int>, kinds: seq<VarType>, numVars: nat, classes: seq<seq<int>>, id: int, kind: VarType)
    requires |ids| == |kinds| && LiteralLayout(ids, kinds, numVars, classes) && kind != VarGate
    ensures LiteralLayout(ids + [id], kinds + [kind], numVars, classes)
  {
    var vars := Flatten(classes);
    assert forall t :: 0 <= t < |vars| ==> (ids + [id])[2 * t] == ids[2 * t] && (ids + [id])[2 * t + 1] == ids[2 * t + 1];
  }

  /** Adding an edge keeps the facts. */
  lemma EdgeKeepsConsistent(gates: seq<Gate>, m: map<int, int>, numVars: nat, classes: seq<seq<int>>, pending: map<int, seq<int>>, i: nat, id: int)
    requires Consistent(gates, m, numVars, classes, pending) && i < |gates|
    ensures Consistent(AddEdge(gates, i, id), m, numVars, classes, pending)
  {
    AddEdgeKeepsNodes(gates, i, id);
  }

  /** Queueing a back-edge keeps the facts, once there is a node for an unmapped key to fall back on. */
  lemma QueueKeepsConsistent(gates: seq<Gate>, m: map<int, int>, numVars: nat, classes: seq<seq<int>>, pending: map<int, seq<int>>, key: int, id: int)
    requires Consistent(gates, m, numVars, classes, pending) && |gates| > 0
    ensures Consistent(gates, m, numVars, classes, Queue(pending, key, id))
  {
  }

  // The steps that keep the listing symmetric.

  /** `storeVariable`: the literals `v` and `-v` list each other. */
  lemma StoreKeepsSymmetry(gates: seq<Gate>, pending: map<int, seq<int>>, v: int)
    requires ListingSymmetric(gates, pending)
    ensures ListingSymmetric(gates + [Gate(v, [-v], VarGate), Gate(-v, [v], VarGate)], pending)
  {
    var a, b := Gate(v, [-v], VarGate), Gate(-v, [v], VarGate);
    var gates' := gates + [a, b];
    assert gates' == gates + [a] + [b];
    forall x, y ensures Listed(gates', pending, x, y) <==> Listed(gates, pending, x, y) || (x, y) in {(v, -v), (-v, v)} {
      ListedAppend(gates + [a], pending, b, x, y);
      ListedAppend(gates, pending, a, x, y);
    }
    SymmetricGrows(gates, pending, gates', pending, {(v, -v), (-v, v)});
  }

  /** `readGateVar` without a NOT node: the gate lists `varId` and `gateId` is queued for `varId`. */
  lemma LiteralEdgeKeepsSymmetry(gates: seq<Gate>, pending: map<int, seq<int>>, gateIndex: nat, gateId: int, varId: int)
    requires ListingSymmetric(gates, pending)
    requires gateIndex < |gates| && gates[gateIndex].fileVarId == gateId
    ensures ListingSymmetric(AddEdge(gates, gateIndex, varId), Queue(pending, varId, gateId))
  {
    var gates', pending' := AddEdge(gates, gateIndex, varId), Queue(pending, varId, gateId);
    forall x, y ensures Listed(gates', pending', x, y) <==> Listed(gates, pending, x, y) || (x, y) in {(gateId, varId), (varId, gateId)} {
      ListedQueue(gates', pending, varId, gateId, x, y);
      ListedAddEdge(gates, pending, gateIndex, varId, x, y);
    }
    SymmetricGrows(gates, pending, gates', pending', {(gateId, varId), (varId, gateId)});
  }

  /** `readGateVar` through a NOT node that already exists at `k`: it lists the gate and the gate lists it. */
  lemma NotEdgesKeepSymmetry(gates: seq<Gate>, pending: map<int, seq<int>>, k: nat, gateIndex: nat, gateId: int, varId: int)
    requires ListingSymmetric(gates, pending)
    requires k < |gates| && gates[k].fileVarId == varId
    requires gateIndex < |gates| && gates[gateIndex].fileVarId == gateId
    ensures ListingSymmetric(AddEdge(AddEdge(gates, k, gateId), gateIndex, varId), pending)
  {
    var g1 := AddEdge(gates, k, gateId);
    var gates' := AddEdge(g1, gateIndex, varId);
    forall x, y ensures Listed(gates', pending, x, y) <==> Listed(gates, pending, x, y) || (x, y) in {(gateId, varId), (varId, gateId)} {
      ListedAddEdge(g1, pending, gateIndex, varId, x, y);
      ListedAddEdge(gates, pending, k, gateId, x, y);
    }
    SymmetricGrows(gates, pending, gates', pending, {(gateId, varId), (varId, gateId)});
  }

  /** `readGateVar` creating the NOT node for `varId`: it lists `-varId`, whose back-edge is queued. */
  lemma NotNodeKeepsSymmetry(gates: seq<Gate>, pending: map<int, seq<int>>, varId: int)
    requires ListingSymmetric(gates, pending)
    ensures ListingSymmetric(gates + [Gate(varId, [-varId], NotGate)], Queue(pending, -varId, varId))
  {
    var g := Gate(varId, [-varId], NotGate);
    var pending' := Queue(pending, -varId, varId);
    forall x, y ensures Listed(gates + [g], pending', x, y) <==> Listed(gates, pending, x, y) || (x, y) in {(varId, -varId), (-varId, varId)} {
      ListedQueue(gates + [g], pending, -varId, varId, x, y);
      ListedAppend(gates, pending, g, x, y);
    }
    SymmetricGrows(gates, pending, gates + [g], pending', {(varId, -varId), (-varId, varId)});
  }

  // The back-edge pass.

  /** No key occurs twice. */
  predicate NoDuplicates(order: seq<int>)
  {
    forall a, b :: 0 <= a < b < |order| ==> order[a] != order[b]
  }

  /**
   * The back-edge pass over the queued keys in the order `order`: each key's queue is
   * appended to the node the key maps to (node 0 for a key that was never mapped).
   */
  function BackEdgesApplied(gates: seq<Gate>, m: map<int, int>, pending: map<int, seq<int>>, order: seq<int>): (r: seq<Gate>)
    requires forall k :: k in order ==> k in pending && 0 <= Lookup(m, k) < |gates|
    ensures |r| == |gates|
    decreases |order|
  {
    if order == [] then gates
    else
      var k := order[|order| - 1];
      var prev := BackEdgesApplied(gates, m, pending, order[..|order| - 1]);
      var i := Lookup(m, k);
      prev[i := prev[i].(adj := prev[i].adj + pending[k])]
  }

  /** The pass changes no node's id or type. */
  lemma {:induction false} BackEdgesKeepNodes(gates: seq<Gate>, m: map<int, int>, pending: map<int, seq<int>>, order: seq<int>)
    requires forall k :: k in order ==> k in pending && 0 <= Lookup(m, k) < |gates|
    ensures IdsOf(BackEdgesApplied(gates, m, pending, order)) == IdsOf(gates)
    ensures KindsOf(BackEdgesApplied(gates, m, pending, order)) == KindsOf(gates)
  {
    if order != [] {
      BackEdgesKeepNodes(gates, m, pending, order[..|order| - 1]);
    }
  }

  /**
   * When every key is mapped, node `i` receives exactly the queue of its own id, and only
   * when that id maps to `i` and occurs in `order`.
   */
  lemma {:induction false} BackEdgesAt(gates: seq<Gate>, m: map<int, int>, pending: map<int, seq<int>>, order: seq<int>, i: nat)
    requires MapOwned(IdsOf(gates), m) && NoDuplicates(order)
    requires forall k :: k in order ==> k in pending && k in m
    requires i < |gates|
    ensures BackEdgesApplied(gates, m, pending, order)[i].adj ==
      gates[i].adj + (if gates[i].fileVarId in order && m[gates[i].fileVarId] == i then pending[gates[i].fileVarId] else [])
    decreases |order|
  {
    if order != [] {
      var n := |order| - 1;
      var k := order[n];
      var own := gates[i].fileVarId;
      assert forall a :: 0 <= a < n ==> order[..n][a] == order[a];
      assert NoDuplicates(order[..n]);
      BackEdgesAt(gates, m, pending, order[..n], i);
      assert order == order[..n] + [k];
      if m[k] == i {
        assert IdsOf(gates)[m[k]] == k;
        assert own !in order[..n];
      }
    }
  }

  /**
   * When every queued key is mapped, the pass turns the queues into adjacency: afterwards
   * exactly what was listed before is listed, with nothing left queued.
   */
  lemma BackEdgesListing(gates: seq<Gate>, m: map<int, int>, pending: map<int, seq<int>>, order: seq<int>)
    requires MapOwned(IdsOf(gates), m) && NoDuplicates(order)
    requires forall k :: k in order <==> k in pending
    requires forall k :: k in pending ==> k in m
    ensures forall x, y :: Listed(BackEdgesApplied(gates, m, pending, order), map[], x, y) <==> Listed(gates, pending, x, y)
  {
    var r := BackEdgesApplied(gates, m, pending, order);
    BackEdgesKeepNodes(gates, m, pending, order);
    forall x, y ensures Listed(r, map[], x, y) <==> Listed(gates, pending, x, y) {
      if Listed(r, map[], x, y) {
        var i :| 0 <= i < |r| && r[i].fileVarId == x && y in r[i].adj;
        BackEdgesAt(gates, m, pending, order, i);
        assert IdsOf(r)[i] == IdsOf(gates)[i];
        if y !in gates[i].adj {
          assert x in pending && y in pending[x];
        }
      }
      if Listed(gates, pending, x, y) {
        if x in pending && y in pending[x] {
          var i := m[x];
          assert IdsOf(gates)[i] == x;
          BackEdgesAt(gates, m, pending, order, i);
          assert IdsOf(r)[i] == IdsOf(gates)[i];
          assert y in r[i].adj;
        } else {
          var i :| 0 <= i < |gates| && gates[i].fileVarId == x && y in gates[i].adj;
          BackEdgesAt(gates, m, pending, order, i);
          assert IdsOf(r)[i] == IdsOf(gates)[i];
          assert y in r[i].adj;
        }
      }
    }
  }

  /**
   * When every queued key is mapped, the order in which the keys are visited does not
   * matter: each key's queue goes to its own node.
   */
  lemma BackEdgesOrderFree(gates: seq<Gate>, m: map<int, int>, pending: map<int, seq<int>>, order1: seq<int>, order2: seq<int>)
    requires MapOwned(IdsOf(gates), m) && NoDuplicates(order1) && NoDuplicates(order2)
    requires forall k :: k in order1 <==> k in pending
    requires forall k :: k in order2 <==> k in pending
    requires forall k :: k in pending ==> k in m
    ensures BackEdgesApplied(gates, m, pending, order1) == BackEdgesApplied(gates, m, pending, order2)
  {
    var r1 := BackEdgesApplied(gates, m, pending, order1);
    var r2 := BackEdgesApplied(gates, m, pending, order2);
    BackEdgesKeepNodes(gates, m, pending, order1);
    BackEdgesKeepNodes(gates, m, pending, order2);
    forall i | 0 <= i < |gates| ensures r1[i] == r2[i] {
      BackEdgesAt(gates, m, pending, order1, i);
      BackEdgesAt(gates, m, pending, order2, i);
      assert IdsOf(r1)[i] == IdsOf(r2)[i] && KindsOf(r1)[i] == KindsOf(r2)[i];
    }
  }
}
