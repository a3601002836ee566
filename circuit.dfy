/**
 * `QCIR_Info` and the steps of `parseQCIRFile` that change it in place: `storeVariable`,
 * `readGateVar`, the registration of each gate and the back-edge pass, each proved to
 * perform the step of the same name in module Steps. `ParseQcirFile` reads the lines with
 * module QcirSyntax and then replays the file's blocks and gates through these steps.
 */
module Circuit {
  import opened Base
  import opened QcirSyntax
  import opened Nodes
  import opened Steps
  import opened Replay

  /** A non-empty set has a member to pick. */
  lemma NonEmptyHasMember(s: set<int>)
    requires s != {}
    ensures exists x :: x in s
  {
    if forall x :: x !in s {
      assert false;
    }
  }

  class QcirInfo {
    var numVars: nat
    var numColors: nat
    var gates: seq<Gate>
    var colorMap: seq<seq<int>>
    var fileToGraphMap: map<int, int>
    /** The back-edges queued per file id until the end of the file (`adjToAdd`). */
    var adjToAdd: map<int, seq<int>>

    /** The fields, as a value. */
    function State(): Info
      reads this
    {
      Info(numVars, numColors, gates, colorMap, fileToGraphMap, adjToAdd)
    }

    constructor ()
      ensures State() == Empty
    {
      numVars := 0;
      numColors := 0;
      gates := [];
      colorMap := [];
      fileToGraphMap := map[];
      adjToAdd := map[];
    }

    /** A new, empty color class for the next quantifier block. */
    method NewColorClass()
      modifies this
      ensures State() == Opened(old(State()))
    {
      colorMap := colorMap + [[]];
    }

    /** `storeVariable`. */
    method StoreVariable(fileVarId: int)
      requires |colorMap| > 0
      modifies this
      ensures State() == Stored(old(State()), fileVarId)
    {
      var v := Gate(fileVarId, [], VarGate);
      var negV := Gate(-fileVarId, [], VarGate);
      v := v.(adj := v.adj + [-fileVarId]);
      negV := negV.(adj := negV.adj + [fileVarId]);
      assert v == Gate(fileVarId, [-fileVarId], VarGate) && negV == Gate(-fileVarId, [fileVarId], VarGate);
      gates := gates + [v];
      gates := gates + [negV];
      assert gates == old(gates) + [v, negV];
      var last := |colorMap| - 1;
      colorMap := colorMap[last := colorMap[last] + [fileVarId]];
      fileToGraphMap := fileToGraphMap[fileVarId := numVars];
      numVars := numVars + 1;
      fileToGraphMap := fileToGraphMap[-fileVarId := numVars];
      numVars := numVars + 1;
    }

    /** A gate line's node, appended at `gateIndex` after its id is mapped there. */
    method AddGate(gateId: int, kind: GateKind) returns (gateIndex: nat)
      modifies this
      ensures gateIndex == |old(gates)|
      ensures State() == GateAdded(old(State()), gateId, kind)
    {
      var gate := Gate(gateId, [], OrGate);
      gateIndex := |gates|;
      if kind == And {
        gate := gate.(kind := AndGate);
      }
      fileToGraphMap := fileToGraphMap[gateId := gateIndex];
      gates := gates + [gate];
    }

    /** `readGateVar`. */
    method ReadGateVar(gateId: int, gateIndex: nat, varId: int)
      requires InRange(State()) && gateIndex < |gates|
      modifies this
      ensures State() == LiteralRead(old(State()), gateId, gateIndex, varId)
    {
      if varId < 0 && (-varId !in fileToGraphMap || fileToGraphMap[-varId] >= numVars) {
        var notGate := Gate(varId, [], NotGate);
        if varId !in fileToGraphMap {
          fileToGraphMap := fileToGraphMap[varId := |gates|];
          notGate := notGate.(adj := notGate.adj + [-varId]);
          assert notGate == Gate(varId, [-varId], NotGate);
          gates := gates + [notGate];
          adjToAdd := Queue(adjToAdd, -varId, varId);
        }
        gates := AddEdge(gates, fileToGraphMap[varId], gateId);
        gates := AddEdge(gates, gateIndex, varId);
      } else {
        gates := AddEdge(gates, gateIndex, varId);
        adjToAdd := Queue(adjToAdd, varId, gateId);
      }
    }

    /**
     * One quantifier line: a new color class, `storeVariable` for each of its variables in
     * order, and one more color.
     */
    method DeclareBlock(vars: seq<int>)
      modifies this
      ensures State() == var s := StoredAll(Opened(old(State())), vars); s.(numColors := s.numColors + 1)
    {
      ghost var start := Opened(State());
      NewColorClass();
      var j := 0;
      while j < |vars|
        invariant j <= |vars|
        invariant State() == StoredAll(start, vars[..j])
      {
        StoreVariable(vars[j]);
        assert vars[..j + 1][..j] == vars[..j];
        j := j + 1;
      }
      assert vars[..j] == vars;
      numColors := numColors + 1;
    }

    /**
     * One gate line: its node, then `readGateVar` for each of its literals from left to
     * right.
     */
    method ReadGate(line: GateLine)
      requires InRange(State())
      modifies this
      ensures State() == var s := old(State()); LiteralsRead(GateAdded(s, line.id, line.kind), line.id, |s.gates|, line.lits)
    {
      ghost var prev := State();
      var gateIndex := AddGate(line.id, line.kind);
      var l := 0;
      while l < |line.lits|
        invariant l <= |line.lits|
        invariant State() == LiteralsRead(GateAdded(prev, line.id, line.kind), line.id, gateIndex, line.lits[..l])
      {
        ReadGateVar(line.id, gateIndex, line.lits[l]);
        assert line.lits[..l + 1][..l] == line.lits[..l];
        l := l + 1;
      }
      assert line.lits[..l] == line.lits;
    }

    /** Appends `toAdd`, one id after the other, to the adjacency of node `g`. */
    method AppendEdges(g: nat, toAdd: seq<int>)
      requires g < |gates|
      modifies this
      ensures gates == old(gates)[g := old(gates)[g].(adj := old(gates)[g].adj + toAdd)]
      ensures numVars == old(numVars) && numColors == old(numColors) && colorMap == old(colorMap)
      ensures fileToGraphMap == old(fileToGraphMap) && adjToAdd == old(adjToAdd)
    {
      var t := 0;
      assert old(gates)[g].adj + toAdd[..0] == old(gates)[g].adj;
      while t < |toAdd|
        invariant t <= |toAdd| && |gates| == |old(gates)|
        invariant gates == old(gates)[g := old(gates)[g].(adj := old(gates)[g].adj + toAdd[..t])]
        invariant numVars == old(numVars) && numColors == old(numColors) && colorMap == old(colorMap)
        invariant fileToGraphMap == old(fileToGraphMap) && adjToAdd == old(adjToAdd)
      {
        assert old(gates)[g].adj + toAdd[..t + 1] == old(gates)[g].adj + toAdd[..t] + [toAdd[t]];
        gates := AddEdge(gates, g, toAdd[t]);
        t := t + 1;
      }
      assert toAdd[..t] == toAdd;
    }

    /**
     * The back-edge pass: every queued key's ids are appended to the node the key maps to
     * (node 0 for a key that was never mapped), visiting the keys in the unspecified order
     * of `unordered_map`, returned as `order`.
     */
    method ApplyBackEdges() returns (order: seq<int>)
      requires Targeted(State())
      modifies this
      ensures NoDuplicates(order) && forall k :: k in order <==> k in old(adjToAdd)
      ensures State() == BackEdgesDone(old(State()), order)
    {
      var pending := adjToAdd;
      ghost var gates0 := gates;
      var keys := pending.Keys;
      order := [];
      while keys != {}
        invariant numVars == old(numVars) && numColors == old(numColors) && colorMap == old(colorMap)
        invariant fileToGraphMap == old(fileToGraphMap) && adjToAdd == pending && |gates| == |gates0|
        invariant forall k :: k in pending ==> 0 <= Lookup(fileToGraphMap, k) < |gates0|
        invariant forall k :: k in order ==> k in pending
        invariant forall k :: k in pending <==> k in order || k in keys
        invariant forall k :: k in keys ==> k !in order
        invariant NoDuplicates(order)
        invariant gates == BackEdgesApplied(gates0, fileToGraphMap, pending, order)
        decreases |keys|
      {
        NonEmptyHasMember(keys);
        var key :| key in keys;
        AppendEdges(Lookup(fileToGraphMap, key), pending[key]);
        assert (order + [key])[..|order|] == order;
        order := order + [key];
        keys := keys - {key};
      }
      adjToAdd := map[];
    }
  }

  /** The quantifier section: each block's variables stored in a color class of its own. */
  method DeclareBlocks(info: QcirInfo, blocks: seq<Block>)
    requires info.State() == Empty
    modifies info
    ensures info.State() == Declared(blocks)
  {
    var b := 0;
    while b < |blocks|
      invariant b <= |blocks|
      invariant info.State() == Declared(blocks[..b])
    {
      assert blocks[..b + 1][..b] == blocks[..b];
      info.DeclareBlock(blocks[b].vars);
      b := b + 1;
    }
    assert blocks[..b] == blocks;
  }

  /** The gate section: each gate line read after the declarations, in file order. */
  method ReadGates(info: QcirInfo, blocks: seq<Block>, gates: seq<GateLine>)
    requires info.State() == Declared(blocks)
    modifies info
    ensures info.State() == GatesRead(Declared(blocks), gates)
  {
    var g := 0;
    while g < |gates|
      invariant g <= |gates|
      invariant info.State() == GatesRead(Declared(blocks), gates[..g])
    {
      assert gates[..g + 1][..g] == gates[..g];
      info.ReadGate(gates[g]);
      g := g + 1;
    }
    assert gates[..g] == gates;
  }

  /**
   * The graph of a parsed document, built as `parseQCIRFile` builds it: the quantifier
   * blocks in order, the gate lines in order, then the back-edge pass, in the key order it
   * returns.
   */
  method Build(doc: Document) returns (info: QcirInfo, order: seq<int>)
    ensures fresh(info)
    ensures Targeted(Collected(doc))
    ensures NoDuplicates(order) && forall k :: k in order <==> k in Collected(doc).adjToAdd
    ensures info.State() == BackEdgesDone(Collected(doc), order)
  {
    info := new QcirInfo();
    DeclareBlocks(info, doc.blocks);
    ReadGates(info, doc.blocks, doc.gates);
    CollectedTargeted(doc);
    order := info.ApplyBackEdges();
  }

  /**
   * `parseQCIRFile` on the lines of a file and whether the file ends with a line break:
   * the first error the file holds, or the graph of the file's document.
   */
  method ParseQcirFile(lines: seq<string>, newlineAtEnd: bool) returns (result: Result<QcirInfo, ParseError>, order: seq<int>)
    ensures ParseDocument(lines, newlineAtEnd).Err? ==> result == Err(ParseDocument(lines, newlineAtEnd).error)
    ensures ParseDocument(lines, newlineAtEnd).Ok? ==> result.Ok? && fresh(result.value)
    ensures ParseDocument(lines, newlineAtEnd).Ok? ==> Targeted(Collected(ParseDocument(lines, newlineAtEnd).value))
    ensures ParseDocument(lines, newlineAtEnd).Ok? ==>
      NoDuplicates(order) && (forall k :: k in order <==> k in Collected(ParseDocument(lines, newlineAtEnd).value).adjToAdd)
    ensures ParseDocument(lines, newlineAtEnd).Ok? ==>
      result.Ok? && result.value.State() == BackEdgesDone(Collected(ParseDocument(lines, newlineAtEnd).value), order)
  {
    var parsed := ParseDocument(lines, newlineAtEnd);
    if parsed.Err? {
      return Err(parsed.error), [];
    }
    var info: QcirInfo;
    info, order := Build(parsed.value);
    result := Ok(info);
  }
}
