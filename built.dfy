/**
 * What `parseQCIRFile` promises about the graph it returns, stated on the replay of a
 * document (module Steps) and proved with the step lemmas of module Replay: the color
 * classes are the quantifier blocks, NOT nodes are created once per id, every literal and
 * its gate list each other, and, once the back-edges are in, the listing is symmetric and
 * does not depend on the order of the back-edge pass, provided every literal names a
 * declared id.
 */
module Built {
  import opened QcirSyntax
  import opened Nodes
  import opened Steps
  import opened Replay

  // The color classes.

  /** `storeVariable` for each of `vars` appends them, in order, to the last class alone. */
  lemma {:induction false} StoredAllClasses(s: Info, vars: seq<int>)
    requires |s.colorMap| > 0
    ensures StoredAll(s, vars).colorMap ==
      s.colorMap[|s.colorMap| - 1 := s.colorMap[|s.colorMap| - 1] + vars]
    decreases |vars|
  {
    var last := |s.colorMap| - 1;
    if vars == [] {
      assert s.colorMap[last] + vars == s.colorMap[last];
    } else {
      var init := vars[..|vars| - 1];
      StoredAllClasses(s, init);
      assert s.colorMap[last] + init + [vars[|vars| - 1]] == s.colorMap[last] + vars;
    }
  }

  /** A quantifier block adds one class, holding its variables. */
  lemma DeclaredAppendsClass(blocks: seq<Block>)
    requires blocks != []
    ensures Declared(blocks).colorMap == Declared(blocks[..|blocks| - 1]).colorMap + [blocks[|blocks| - 1].vars]
  {
    var n := |blocks| - 1;
    var prev := Declared(blocks[..n]);
    var start := Opened(prev);
    var vars := blocks[n].vars;
    assert start.colorMap == prev.colorMap + [[]];
    assert Declared(blocks).colorMap == StoredAll(start, vars).colorMap;
    StoredAllClasses(start, vars);
    assert [] + vars == vars;
    FillOpenedClass(prev.colorMap, vars);
  }

  /** Filling the class just opened is appending a class. */
  lemma FillOpenedClass(classes: seq<seq<int>>, vars: seq<int>)
    ensures (classes + [[]])[|classes| := vars] == classes + [vars]
  {
  }

  /** After the quantifier section, class `i` holds the variables of block `i`, in order. */
  lemma {:induction false} DeclaredClasses(blocks: seq<Block>)
    ensures forall i :: 0 <= i < |blocks| ==> Declared(blocks).colorMap[i] == blocks[i].vars
    decreases |blocks|
  {
    if blocks != [] {
      var n := |blocks| - 1;
      var prev := Declared(blocks[..n]).colorMap;
      DeclaredClasses(blocks[..n]);
      DeclaredAppendsClass(blocks);
      AppendedClasses(prev, blocks);
    }
  }

  /** Classes matching all but the last block, extended by the last block's variables. */
  lemma AppendedClasses(prev: seq<seq<int>>, blocks: seq<Block>)
    requires blocks != [] && |prev| == |blocks| - 1
    requires forall i :: 0 <= i < |prev| ==> prev[i] == blocks[..|prev|][i].vars
    ensures forall i :: 0 <= i < |blocks| ==> (prev + [blocks[|prev|].vars])[i] == blocks[i].vars
  {
  }

  /**
   * The color classes of the graph are the quantifier blocks, and there are as many
   * literal nodes as twice the variables of all blocks.
   */
  lemma CollectedClasses(doc: Document)
    ensures Collected(doc).numColors == |doc.blocks| && |Collected(doc).colorMap| == |doc.blocks|
    ensures forall i :: 0 <= i < |doc.blocks| ==> Collected(doc).colorMap[i] == doc.blocks[i].vars
    ensures Collected(doc).numVars == 2 * |Flatten(Collected(doc).colorMap)|
  {
    DeclaredClasses(doc.blocks);
    CollectedValid(doc);
  }

  // NOT nodes.

  /**
   * `readGateVar` adds a node exactly when `varId` needs a NOT node and has none yet; the
   * node is then a NOT node for `varId` and `varId` maps to it. Otherwise no id is mapped.
   */
  lemma LiteralReadGrowth(s: Info, gateId: int, gateIndex: nat, varId: int)
    requires InRange(s) && gateIndex < |s.gates|
    ensures var r := LiteralRead(s, gateId, gateIndex, varId);
      var created := NeedsNotNode(s.fileToGraphMap, s.numVars, varId) && varId !in s.fileToGraphMap;
      && |r.gates| == |s.gates| + (if created then 1 else 0)
      && (created ==> r.gates[|s.gates|].fileVarId == varId && r.gates[|s.gates|].kind == NotGate)
      && r.fileToGraphMap == (if created then s.fileToGraphMap[varId := |s.gates|] else s.fileToGraphMap)
  {
  }

  /** Reading the same literal twice, for any gates, creates at most one node. */
  lemma LiteralReadOnce(s: Info, gate1: int, index1: nat, gate2: int, index2: nat, varId: int)
    requires InRange(s) && index1 < |s.gates| && index2 < |s.gates|
    ensures |LiteralRead(LiteralRead(s, gate1, index1, varId), gate2, index2, varId).gates| <= |s.gates| + 1
  {
    var t := LiteralRead(s, gate1, index1, varId);
    LiteralReadGrowth(s, gate1, index1, varId);
    LiteralReadGrowth(t, gate2, index2, varId);
  }

  /**
   * After `readGateVar` the gate lists the literal and the literal lists the gate, the
   * latter as an edge of the NOT node or as a queued back-edge.
   */
  lemma LiteralReadLinks(s: Info, gateId: int, gateIndex: nat, varId: int)
    requires Valid(s) && gateIndex < |s.gates| && s.gates[gateIndex].fileVarId == gateId
    ensures InRange(s)
    ensures Listed(LiteralRead(s, gateId, gateIndex, varId).gates, LiteralRead(s, gateId, gateIndex, varId).adjToAdd, gateId, varId)
    ensures Listed(LiteralRead(s, gateId, gateIndex, varId).gates, LiteralRead(s, gateId, gateIndex, varId).adjToAdd, varId, gateId)
  {
    ValidInRange(s);
    var r := LiteralRead(s, gateId, gateIndex, varId);
    LiteralReadKeepsNode(s, gateId, gateIndex, varId, gateIndex);
    assert varId in r.gates[gateIndex].adj;
    if NeedsNotNode(s.fileToGraphMap, s.numVars, varId) {
      var k := r.fileToGraphMap[varId];
      if varId in s.fileToGraphMap {
        assert IdsOf(s.gates)[k] == varId;
        LiteralReadKeepsNode(s, gateId, gateIndex, varId, k);
      }
      assert gateId in r.gates[k].adj;
    }
  }

  // Resolution: every queued key is mapped when every literal names a declared id.

  function Abs(x: int): nat
  {
    if x < 0 then -x else x
  }

  /** `x` is declared in the file: a quantified variable or the id of a gate line. */
  predicate IsDeclared(doc: Document, x: int)
  {
    (exists b :: b in doc.blocks && x in b.vars) || (exists g :: g in doc.gates && g.id == x)
  }

  /** Every literal of every gate line names, up to its sign, a declared id. */
  predicate Resolves(doc: Document)
  {
    forall g, l :: g in doc.gates && l in g.lits ==> IsDeclared(doc, Abs(l))
  }

  /** Every queued key is mapped or declared. */
  predicate QueuedKnown(s: Info, doc: Document)
  {
    forall k :: k in s.adjToAdd ==> k in s.fileToGraphMap || IsDeclared(doc, k)
  }

  /** A mapped literal node's partner literal is mapped too. */
  lemma PartnerMapped(s: Info, x: int)
    requires Valid(s) && x in s.fileToGraphMap && s.fileToGraphMap[x] < s.numVars
    ensures -x in s.fileToGraphMap
  {
    var ids := IdsOf(s.gates);
    var vars := Flatten(s.colorMap);
    var i := s.fileToGraphMap[x];
    var t := i / 2;
    assert ids[i] == x;
    assert t < |vars| && (i == 2 * t || i == 2 * t + 1);
    if i == 2 * t {
      assert ids[2 * t + 1] == -x;
    } else {
      assert ids[2 * t] == -x;
    }
  }

  lemma LiteralReadKeepsKnown(s: Info, gateId: int, gateIndex: nat, varId: int, doc: Document)
    requires Valid(s) && gateIndex < |s.gates| && QueuedKnown(s, doc) && IsDeclared(doc, Abs(varId))
    ensures InRange(s) && QueuedKnown(LiteralRead(s, gateId, gateIndex, varId), doc)
  {
    ValidInRange(s);
    if !NeedsNotNode(s.fileToGraphMap, s.numVars, varId) && varId < 0 {
      PartnerMapped(s, -varId);
    }
  }

  lemma {:induction false} LiteralsReadKeepsKnown(s: Info, gateId: int, gateIndex: nat, lits: seq<int>, doc: Document)
    requires Valid(s) && gateIndex < |s.gates| && QueuedKnown(s, doc)
    requires forall l :: l in lits ==> IsDeclared(doc, Abs(l))
    ensures InRange(s) && QueuedKnown(LiteralsRead(s, gateId, gateIndex, lits), doc)
    decreases |lits|
  {
    ValidInRange(s);
    if lits != [] {
      var init := lits[..|lits| - 1];
      assert forall l :: l in init ==> l in lits;
      LiteralsReadKeepsKnown(s, gateId, gateIndex, init, doc);
      LiteralsReadKeepsValid(s, gateId, gateIndex, init);
      LiteralReadKeepsKnown(LiteralsRead(s, gateId, gateIndex, init), gateId, gateIndex, lits[|lits| - 1], doc);
    }
  }

  lemma {:induction false} GatesReadKeepsKnown(s: Info, lines: seq<GateLine>, doc: Document)
    requires Valid(s) && QueuedKnown(s, doc)
    requires forall g, l :: g in lines && l in g.lits ==> IsDeclared(doc, Abs(l))
    ensures InRange(s) && QueuedKnown(GatesRead(s, lines), doc)
    decreases |lines|
  {
    ValidInRange(s);
    if lines != [] {
      var init := lines[..|lines| - 1];
      var prev := GatesRead(s, init);
      var g := lines[|lines| - 1];
      assert forall h :: h in init ==> h in lines;
      GatesReadKeepsKnown(s, init, doc);
      GatesReadKeepsValid(s, init);
      GateAddedKeepsValid(prev, g.id, g.kind);
      LiteralsReadKeepsKnown(GateAdded(prev, g.id, g.kind), g.id, |prev.gates|, g.lits, doc);
    }
  }

  /** `storeVariable` for each of `vars` maps each of them and unmaps nothing. */
  lemma {:induction false} StoredAllMaps(s: Info, vars: seq<int>)
    requires |s.colorMap| > 0
    ensures s.fileToGraphMap.Keys <= StoredAll(s, vars).fileToGraphMap.Keys
    ensures forall v :: v in vars ==> v in StoredAll(s, vars).fileToGraphMap
    decreases |vars|
  {
    if vars != [] {
      StoredAllMaps(s, vars[..|vars| - 1]);
      assert forall v :: v in vars ==> v in vars[..|vars| - 1] || v == vars[|vars| - 1];
    }
  }

  /** After the quantifier section every quantified variable is mapped. */
  lemma {:induction false} DeclaredMaps(blocks: seq<Block>)
    ensures forall b, v :: b in blocks && v in b.vars ==> v in Declared(blocks).fileToGraphMap
    decreases |blocks|
  {
    if blocks != [] {
      var n := |blocks| - 1;
      var prev := Declared(blocks[..n]);
      DeclaredMaps(blocks[..n]);
      StoredAllMaps(Opened(prev), blocks[n].vars);
      assert forall b :: b in blocks ==> b in blocks[..n] || b == blocks[n];
    }
  }

  /** The gate section maps the id of each of its lines. */
  lemma {:induction false} GatesReadMaps(s: Info, lines: seq<GateLine>)
    requires InRange(s)
    ensures forall g :: g in lines ==> g.id in GatesRead(s, lines).fileToGraphMap
    decreases |lines|
  {
    if lines != [] {
      GatesReadMaps(s, lines[..|lines| - 1]);
      assert forall g :: g in lines ==> g in lines[..|lines| - 1] || g == lines[|lines| - 1];
    }
  }

  /** Every declared id is mapped before the back-edge pass. */
  lemma DeclaredIdsMapped(doc: Document, x: int)
    requires IsDeclared(doc, x)
    ensures x in Collected(doc).fileToGraphMap
  {
    DeclaredMaps(doc.blocks);
    GatesReadMaps(Declared(doc.blocks), doc.gates);
  }

  /** When every literal names a declared id, every queued key is mapped. */
  lemma CollectedKeysMapped(doc: Document)
    requires Resolves(doc)
    ensures forall k :: k in Collected(doc).adjToAdd ==> k in Collected(doc).fileToGraphMap
  {
    DeclaredValid(doc.blocks);
    GatesReadKeepsKnown(Declared(doc.blocks), doc.gates, doc);
    forall k | k in Collected(doc).adjToAdd ensures k in Collected(doc).fileToGraphMap {
      if k !in Collected(doc).fileToGraphMap {
        DeclaredIdsMapped(doc, k);
      }
    }
  }

  // The finished graph.

  /** After the back-edge pass the bookkeeping facts hold and nothing is left queued. */
  lemma BuiltValid(doc: Document, order: seq<int>)
    requires forall k :: k in order ==> k in Collected(doc).adjToAdd
    ensures Targeted(Collected(doc))
    ensures Valid(BackEdgesDone(Collected(doc), order)) && BackEdgesDone(Collected(doc), order).adjToAdd == map[]
  {
    CollectedValid(doc);
    BackEdgesKeepValid(Collected(doc), order);
  }

  /**
   * When every literal names a declared id, the finished adjacency lists are symmetric by
   * file id: if a node for `x` lists `y`, a node for `y` lists `x`.
   */
  lemma BuiltSymmetric(doc: Document, order: seq<int>)
    requires Resolves(doc) && NoDuplicates(order)
    requires forall k :: k in order <==> k in Collected(doc).adjToAdd
    ensures Targeted(Collected(doc))
    ensures ListingSymmetric(BackEdgesDone(Collected(doc), order).gates, map[])
  {
    var s := Collected(doc);
    CollectedValid(doc);
    CollectedBalanced(doc);
    CollectedKeysMapped(doc);
    BackEdgesListing(s.gates, s.fileToGraphMap, s.adjToAdd, order);
    var r := BackEdgesDone(s, order).gates;
    forall x, y | Listed(r, map[], x, y) ensures Listed(r, map[], y, x) {
      assert Listed(s.gates, s.adjToAdd, y, x);
    }
  }

  /** When every literal names a declared id, the order of the back-edge pass does not matter. */
  lemma BuiltOrderFree(doc: Document, order1: seq<int>, order2: seq<int>)
    requires Resolves(doc) && NoDuplicates(order1) && NoDuplicates(order2)
    requires forall k :: k in order1 <==> k in Collected(doc).adjToAdd
    requires forall k :: k in order2 <==> k in Collected(doc).adjToAdd
    ensures Targeted(Collected(doc))
    ensures BackEdgesDone(Collected(doc), order1) == BackEdgesDone(Collected(doc), order2)
  {
    var s := Collected(doc);
    CollectedValid(doc);
    CollectedKeysMapped(doc);
    BackEdgesOrderFree(s.gates, s.fileToGraphMap, s.adjToAdd, order1, order2);
  }
}
