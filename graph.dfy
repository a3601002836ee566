/**
 * The graph `main` hands to saucy, for the graph `parseQCIRFile` built: the compressed
 * arrays of the finished nodes and their colors, and what they promise for a document —
 * the two literal nodes of every variable carry its block's color, gate nodes carry colors
 * of their own, and the graph is undirected.
 */
module Graph {
  import opened QcirSyntax
  import opened Nodes
  import opened Steps
  import opened Replay
  import opened Built
  import opened Encoding
  import opened Circuit

  /**
   * The graph-building part of `main`: the compressed adjacency of `info`'s nodes and their
   * colors, literal nodes by class and gate nodes by type.
   */
  method EncodeGraph(info: QcirInfo) returns (adj: seq<int>, edg: seq<int>, colors: array<int>)
    requires Valid(info.State())
    ensures Encodes(info.gates, info.fileToGraphMap, adj, edg)
    ensures fresh(colors) && colors.Length == |info.gates| && info.numVars <= |info.gates|
    ensures colors[..info.numVars] == LiteralColors(info.colorMap)
    ensures forall i :: info.numVars <= i < |info.gates| ==> colors[i] == GateColor(info.gates[i].kind, info.numColors)
  {
    adj, edg := EncodeAdjacency(info.gates, info.fileToGraphMap);
    colors := EncodeColors(info.gates, info.numColors, info.colorMap);
  }

  /** The variables of each block, block after block. */
  function BlockVars(blocks: seq<Block>): seq<seq<int>>
  {
    seq(|blocks|, i requires 0 <= i < |blocks| => blocks[i].vars)
  }

  /**
   * The graph of a document has one color class per quantifier block, holding the block's
   * variables, and its first nodes are the literal pairs of those variables in order.
   */
  lemma BuiltLayout(doc: Document, order: seq<int>)
    requires forall k :: k in order ==> k in Collected(doc).adjToAdd
    ensures Targeted(Collected(doc))
    ensures var s := BackEdgesDone(Collected(doc), order);
      s.colorMap == BlockVars(doc.blocks) && LiteralLayout(IdsOf(s.gates), KindsOf(s.gates), s.numVars, s.colorMap)
  {
    CollectedClasses(doc);
    BuiltValid(doc, order);
  }

  /**
   * When the literal nodes are laid out by class, the `k`-th variable `v` of class `c` has
   * its literal nodes `v` and `-v` side by side at `2t` and `2t + 1`, where `t` counts the
   * variables declared before `v`, and both get color `c`.
   */
  lemma LiteralNodesColored(s: Info, c: nat, k: nat)
    requires LiteralLayout(IdsOf(s.gates), KindsOf(s.gates), s.numVars, s.colorMap)
    requires c < |s.colorMap| && k < |s.colorMap[c]|
    ensures var t := |Flatten(s.colorMap[..c])| + k;
      && 2 * t + 1 < s.numVars <= |s.gates| && 2 * t + 1 < |LiteralColors(s.colorMap)|
      && s.gates[2 * t].fileVarId == s.colorMap[c][k] && s.gates[2 * t + 1].fileVarId == -s.colorMap[c][k]
      && LiteralColors(s.colorMap)[2 * t] == c && LiteralColors(s.colorMap)[2 * t + 1] == c
  {
    var ids := IdsOf(s.gates);
    LiteralColorAt(s.colorMap, c, k);
    var t := |Flatten(s.colorMap[..c])| + k;
    assert ids[2 * t] == Flatten(s.colorMap)[t] && ids[2 * t + 1] == -Flatten(s.colorMap)[t];
  }

  /**
   * Literal nodes and gate nodes never share a color: literal colors are block indices,
   * below `numColors`, and every node past the literals is an and, or or NOT node whose
   * color tells its type.
   */
  lemma BuiltColorsApart(doc: Document, order: seq<int>)
    requires forall k :: k in order ==> k in Collected(doc).adjToAdd
    ensures Targeted(Collected(doc))
    ensures var s := BackEdgesDone(Collected(doc), order);
      && |LiteralColors(s.colorMap)| == s.numVars <= |s.gates|
      && (forall i :: 0 <= i < s.numVars ==> 0 <= LiteralColors(s.colorMap)[i] < s.numColors)
      && (forall j :: s.numVars <= j < |s.gates| ==>
            s.gates[j].kind != VarGate && s.numColors <= GateColor(s.gates[j].kind, s.numColors))
      && (forall i, j :: s.numVars <= i < |s.gates| && s.numVars <= j < |s.gates| ==>
            (GateColor(s.gates[i].kind, s.numColors) == GateColor(s.gates[j].kind, s.numColors) <==>
             s.gates[i].kind == s.gates[j].kind))
  {
    BuiltValid(doc, order);
    CollectedClasses(doc);
    var s := BackEdgesDone(Collected(doc), order);
    var kinds := KindsOf(s.gates);
    assert LiteralLayout(IdsOf(s.gates), kinds, s.numVars, s.colorMap);
    LiteralColorsBelow(s.colorMap);
    forall i, j | s.numVars <= i < |s.gates| && s.numVars <= j < |s.gates|
      ensures GateColor(s.gates[i].kind, s.numColors) == GateColor(s.gates[j].kind, s.numColors) <==>
              s.gates[i].kind == s.gates[j].kind
    {
      assert kinds[i] != VarGate && kinds[j] != VarGate;
      GateColorsApart(s.numColors, s.gates[i].kind, s.gates[j].kind);
    }
  }

  /**
   * When every literal names a declared id and no two nodes stand for the same id, the
   * graph handed to saucy is undirected: `j` is a neighbour of `i` exactly when `i` is a
   * neighbour of `j`, and every neighbour is a node.
   */
  lemma BuiltUndirected(doc: Document, order: seq<int>, adj: seq<int>, edg: seq<int>)
    requires Resolves(doc) && NoDuplicates(order) && Targeted(Collected(doc))
    requires forall k :: k in order <==> k in Collected(doc).adjToAdd
    requires DistinctIds(IdsOf(BackEdgesDone(Collected(doc), order).gates))
    requires Encodes(BackEdgesDone(Collected(doc), order).gates, Collected(doc).fileToGraphMap, adj, edg)
    ensures var s := BackEdgesDone(Collected(doc), order);
      && (forall i, j :: 0 <= i < |s.gates| && j in Neighbours(s.gates, s.fileToGraphMap, adj, edg, i) ==> 0 <= j < |s.gates|)
      && (forall i, j :: 0 <= i < |s.gates| && 0 <= j < |s.gates| ==>
            (j in Neighbours(s.gates, s.fileToGraphMap, adj, edg, i) <==> i in Neighbours(s.gates, s.fileToGraphMap, adj, edg, j)))
  {
    BuiltValid(doc, order);
    BuiltSymmetric(doc, order);
    var s := BackEdgesDone(Collected(doc), order);
    Undirected(s.gates, s.fileToGraphMap, adj, edg);
  }
}
