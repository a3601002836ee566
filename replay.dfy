/**
 * What the steps of module Steps keep, proved one step at a time and then for the replay
 * of a whole document: the bookkeeping facts of module Nodes, the symmetric listing, the
 * color classes of the quantifier blocks and, when every literal names a declared id,
 * a mapped key for every queued back-edge.
 */
module Replay {
  import opened QcirSyntax
  import opened Nodes
  import opened Steps

  // The bookkeeping facts.

  lemma EmptyValid()
    ensures Valid(Empty)
  {
    assert IdsOf([]) == [] && KindsOf([]) == [];
    assert MapOwned([], map[]);
    assert OwnersMapped([], map[]);
    assert NotNodesDistinct([], []);
    assert Flatten([]) == [];
    assert LiteralLayout([], [], 0, []);
    assert PendingTargets(0, map[], map[]);
  }

  lemma OpenedKeepsValid(s: Info)
    requires Valid(s)
    ensures Valid(Opened(s))
  {
    FlattenOpen(s.colorMap);
  }

  lemma StoredKeepsValid(s: Info, v: int)
    requires Valid(s) && Declaring(s) && |s.colorMap| > 0
    ensures Valid(Stored(s, v))
  {
    StoreKeepsConsistent(s.gates, s.fileToGraphMap, s.numVars, s.colorMap, s.adjToAdd, v);
  }

  lemma {:induction false} StoredAllKeepsValid(s: Info, vars: seq<int>)
    requires Valid(s) && Declaring(s) && |s.colorMap| > 0
    ensures Valid(StoredAll(s, vars))
    decreases |vars|
  {
    if vars != [] {
      StoredAllKeepsValid(s, vars[..|vars| - 1]);
      StoredKeepsValid(StoredAll(s, vars[..|vars| - 1]), vars[|vars| - 1]);
    }
  }

  /** After the quantifier section the bookkeeping facts hold. */
  lemma {:induction false} DeclaredValid(blocks: seq<Block>)
    ensures Valid(Declared(blocks))
    decreases |blocks|
  {
    if blocks == [] {
      EmptyValid();
    } else {
      var prev := Declared(blocks[..|blocks| - 1]);
      DeclaredValid(blocks[..|blocks| - 1]);
      OpenedKeepsValid(prev);
      StoredAllKeepsValid(Opened(prev), blocks[|blocks| - 1].vars);
    }
  }

  lemma GateAddedKeepsValid(s: Info, id: int, kind: GateKind)
    requires Valid(s)
    ensures Valid(GateAdded(s, id, kind))
  {
    GateKeepsConsistent(s.gates, s.fileToGraphMap, s.numVars, s.colorMap, s.adjToAdd, Gate(id, [], GateType(kind)));
  }

  /** The facts imply that every mapped id leads to an existing node. */
  lemma ValidInRange(s: Info)
    requires Valid(s)
    ensures InRange(s)
  {
  }

  /** `readGateVar` through a NOT node created on this call keeps the facts. */
  lemma NewNotKeepsValid(s: Info, gateId: int, gateIndex: nat, varId: int)
    requires Valid(s) && gateIndex < |s.gates|
    requires NeedsNotNode(s.fileToGraphMap, s.numVars, varId) && varId !in s.fileToGraphMap
    ensures Valid(LiteralRead(s, gateId, gateIndex, varId))
  {
    var g := Gate(varId, [-varId], NotGate);
    var m := s.fileToGraphMap[varId := |s.gates|];
    NotNodeKeepsConsistent(s.gates, s.fileToGraphMap, s.numVars, s.colorMap, s.adjToAdd, g);
    QueueKeepsConsistent(s.gates + [g], m, s.numVars, s.colorMap, s.adjToAdd, -varId, varId);
    var pending := Queue(s.adjToAdd, -varId, varId);
    EdgeKeepsConsistent(s.gates + [g], m, s.numVars, s.colorMap, pending, |s.gates|, gateId);
    EdgeKeepsConsistent(AddEdge(s.gates + [g], |s.gates|, gateId), m, s.numVars, s.colorMap, pending, gateIndex, varId);
  }

  /** `readGateVar` keeps the facts. */
  lemma LiteralReadKeepsValid(s: Info, gateId: int, gateIndex: nat, varId: int)
    requires Valid(s) && gateIndex < |s.gates|
    ensures InRange(s) && Valid(LiteralRead(s, gateId, gateIndex, varId))
  {
    ValidInRange(s);
    var m := s.fileToGraphMap;
    if NeedsNotNode(m, s.numVars, varId) {
      if varId in m {
        EdgeKeepsConsistent(s.gates, m, s.numVars, s.colorMap, s.adjToAdd, m[varId], gateId);
        EdgeKeepsConsistent(AddEdge(s.gates, m[varId], gateId), m, s.numVars, s.colorMap, s.adjToAdd, gateIndex, varId);
      } else {
        NewNotKeepsValid(s, gateId, gateIndex, varId);
      }
    } else {
      EdgeKeepsConsistent(s.gates, m, s.numVars, s.colorMap, s.adjToAdd, gateIndex, varId);
      QueueKeepsConsistent(AddEdge(s.gates, gateIndex, varId), m, s.numVars, s.colorMap, s.adjToAdd, varId, gateId);
    }
  }

  lemma {:induction false} LiteralsReadKeepsValid(s: Info, gateId: int, gateIndex: nat, lits: seq<int>)
    requires Valid(s) && gateIndex < |s.gates|
    ensures InRange(s) && Valid(LiteralsRead(s, gateId, gateIndex, lits))
    decreases |lits|
  {
    ValidInRange(s);
    if lits != [] {
      LiteralsReadKeepsValid(s, gateId, gateIndex, lits[..|lits| - 1]);
      LiteralReadKeepsValid(LiteralsRead(s, gateId, gateIndex, lits[..|lits| - 1]), gateId, gateIndex, lits[|lits| - 1]);
    }
  }

  lemma {:induction false} GatesReadKeepsValid(s: Info, lines: seq<GateLine>)
    requires Valid(s)
    ensures InRange(s) && Valid(GatesRead(s, lines))
    decreases |lines|
  {
    ValidInRange(s);
    if lines != [] {
      var prev := GatesRead(s, lines[..|lines| - 1]);
      var g := lines[|lines| - 1];
      GatesReadKeepsValid(s, lines[..|lines| - 1]);
      GateAddedKeepsValid(prev, g.id, g.kind);
      LiteralsReadKeepsValid(GateAdded(prev, g.id, g.kind), g.id, |prev.gates|, g.lits);
    }
  }

  /** Before the back-edge pass the bookkeeping facts hold. */
  lemma CollectedValid(doc: Document)
    ensures Valid(Collected(doc))
  {
    DeclaredValid(doc.blocks);
    GatesReadKeepsValid(Declared(doc.blocks), doc.gates);
  }

  /** Before the back-edge pass every queued key leads to a node. */
  lemma CollectedTargeted(doc: Document)
    ensures Targeted(Collected(doc))
  {
    CollectedValid(doc);
  }

  /** The back-edge pass keeps the facts, with nothing left queued. */
  lemma BackEdgesKeepValid(s: Info, order: seq<int>)
    requires Valid(s) && forall k :: k in order ==> k in s.adjToAdd
    ensures Valid(BackEdgesDone(s, order))
  {
    BackEdgesKeepNodes(s.gates, s.fileToGraphMap, s.adjToAdd, order);
  }

  // The symmetric listing.

  lemma EmptyBalanced()
    ensures Balanced(Empty)
  {
  }

  lemma {:induction false} StoredAllKeepsBalanced(s: Info, vars: seq<int>)
    requires Balanced(s) && |s.colorMap| > 0
    ensures Balanced(StoredAll(s, vars))
    decreases |vars|
  {
    if vars != [] {
      var prev := StoredAll(s, vars[..|vars| - 1]);
      StoredAllKeepsBalanced(s, vars[..|vars| - 1]);
      StoreKeepsSymmetry(prev.gates, prev.adjToAdd, vars[|vars| - 1]);
    }
  }

  /** After the quantifier section every listing is symmetric. */
  lemma {:induction false} DeclaredBalanced(blocks: seq<Block>)
    ensures Balanced(Declared(blocks))
    decreases |blocks|
  {
    if blocks == [] {
      EmptyBalanced();
    } else {
      var prev := Declared(blocks[..|blocks| - 1]);
      DeclaredBalanced(blocks[..|blocks| - 1]);
      StoredAllKeepsBalanced(Opened(prev), blocks[|blocks| - 1].vars);
    }
  }

  lemma GateAddedKeepsBalanced(s: Info, id: int, kind: GateKind)
    requires Balanced(s)
    ensures Balanced(GateAdded(s, id, kind))
  {
    var g := Gate(id, [], GateType(kind));
    forall x, y ensures Listed(s.gates + [g], s.adjToAdd, x, y) <==> Listed(s.gates, s.adjToAdd, x, y) || (x, y) in {} {
      ListedAppend(s.gates, s.adjToAdd, g, x, y);
    }
    SymmetricGrows(s.gates, s.adjToAdd, s.gates + [g], s.adjToAdd, {});
  }

  /** `readGateVar` keeps the listing symmetric. */
  lemma LiteralReadKeepsBalanced(s: Info, gateId: int, gateIndex: nat, varId: int)
    requires Valid(s) && Balanced(s) && gateIndex < |s.gates| && s.gates[gateIndex].fileVarId == gateId
    ensures InRange(s) && Balanced(LiteralRead(s, gateId, gateIndex, varId))
  {
    ValidInRange(s);
    var m := s.fileToGraphMap;
    if NeedsNotNode(m, s.numVars, varId) {
      if varId in m {
        assert IdsOf(s.gates)[m[varId]] == varId;
        NotEdgesKeepSymmetry(s.gates, s.adjToAdd, m[varId], gateIndex, gateId, varId);
      } else {
        var gs := s.gates + [Gate(varId, [-varId], NotGate)];
        NotNodeKeepsSymmetry(s.gates, s.adjToAdd, varId);
        NotEdgesKeepSymmetry(gs, Queue(s.adjToAdd, -varId, varId), |s.gates|, gateIndex, gateId, varId);
      }
    } else {
      LiteralEdgeKeepsSymmetry(s.gates, s.adjToAdd, gateIndex, gateId, varId);
    }
  }

  /** `readGateVar` changes no existing node's id or type. */
  lemma LiteralReadKeepsNode(s: Info, gateId: int, gateIndex: nat, varId: int, i: nat)
    requires InRange(s) && gateIndex < |s.gates| && i < |s.gates|
    ensures LiteralRead(s, gateId, gateIndex, varId).gates[i].fileVarId == s.gates[i].fileVarId
    ensures LiteralRead(s, gateId, gateIndex, varId).gates[i].kind == s.gates[i].kind
  {
  }

  lemma {:induction false} LiteralsReadKeepsNode(s: Info, gateId: int, gateIndex: nat, lits: seq<int>, i: nat)
    requires InRange(s) && gateIndex < |s.gates| && i < |s.gates|
    ensures LiteralsRead(s, gateId, gateIndex, lits).gates[i].fileVarId == s.gates[i].fileVarId
    ensures LiteralsRead(s, gateId, gateIndex, lits).gates[i].kind == s.gates[i].kind
    decreases |lits|
  {
    if lits != [] {
      LiteralsReadKeepsNode(s, gateId, gateIndex, lits[..|lits| - 1], i);
      LiteralReadKeepsNode(LiteralsRead(s, gateId, gateIndex, lits[..|lits| - 1]), gateId, gateIndex, lits[|lits| - 1], i);
    }
  }

  lemma {:induction false} LiteralsReadKeepsBalanced(s: Info, gateId: int, gateIndex: nat, lits: seq<int>)
    requires Valid(s) && Balanced(s) && gateIndex < |s.gates| && s.gates[gateIndex].fileVarId == gateId
    ensures InRange(s) && Balanced(LiteralsRead(s, gateId, gateIndex, lits))
    decreases |lits|
  {
    ValidInRange(s);
    if lits != [] {
      var init := lits[..|lits| - 1];
      LiteralsReadKeepsBalanced(s, gateId, gateIndex, init);
      LiteralsReadKeepsValid(s, gateId, gateIndex, init);
      LiteralsReadKeepsNode(s, gateId, gateIndex, init, gateIndex);
      LiteralReadKeepsBalanced(LiteralsRead(s, gateId, gateIndex, init), gateId, gateIndex, lits[|lits| - 1]);
    }
  }

  lemma {:induction false} GatesReadKeepsBalanced(s: Info, lines: seq<GateLine>)
    requires Valid(s) && Balanced(s)
    ensures InRange(s) && Balanced(GatesRead(s, lines))
    decreases |lines|
  {
    ValidInRange(s);
    if lines != [] {
      var prev := GatesRead(s, lines[..|lines| - 1]);
      var g := lines[|lines| - 1];
      GatesReadKeepsBalanced(s, lines[..|lines| - 1]);
      GatesReadKeepsValid(s, lines[..|lines| - 1]);
      GateAddedKeepsValid(prev, g.id, g.kind);
      GateAddedKeepsBalanced(prev, g.id, g.kind);
      LiteralsReadKeepsBalanced(GateAdded(prev, g.id, g.kind), g.id, |prev.gates|, g.lits);
    }
  }

  /** Before the back-edge pass every listing, present or queued, is symmetric. */
  lemma CollectedBalanced(doc: Document)
    ensures Balanced(Collected(doc))
  {
    DeclaredValid(doc.blocks);
    DeclaredBalanced(doc.blocks);
    GatesReadKeepsBalanced(Declared(doc.blocks), doc.gates);
  }
}
