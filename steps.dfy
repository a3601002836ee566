/**
 * The steps of `parseQCIRFile` as functions on a snapshot of the state they change: the
 * fields of `QCIR_Info` and the back-edge queue `adjToAdd`. Module Circuit performs the
 * same steps in place; here they are replayed over a whole document, and what the steps
 * keep (the bookkeeping facts, the symmetric listing) is proved of the replay.
 */
module Steps {
  import opened QcirSyntax
  import opened Nodes

  /** A snapshot of `QCIR_Info` together with `adjToAdd`. */
  datatype Info = Info(numVars: nat, numColors: nat, gates: seq<Gate>, colorMap: seq<seq<int>>,
                       fileToGraphMap: map<int, int>, adjToAdd: map<int, seq<int>>)

  /** The state `QCIR_Info()` starts from, with nothing queued. */
  const Empty: Info := Info(0, 0, [], [], map[], map[])

  /** Every mapped id leads to an existing node. */
  predicate InRange(s: Info)
  {
    forall id :: id in s.fileToGraphMap ==> 0 <= s.fileToGraphMap[id] < |s.gates|
  }

  /** While variables are declared, the literal nodes are all the nodes there are. */
  predicate Declaring(s: Info)
  {
    s.numVars == |s.gates| && InRange(s)
  }

  /** The bookkeeping facts of module Nodes, for a snapshot. */
  predicate Valid(s: Info)
  {
    Consistent(s.gates, s.fileToGraphMap, s.numVars, s.colorMap, s.adjToAdd)
  }

  /** Whatever is listed, present or queued, is listed the other way round too. */
  ghost predicate Balanced(s: Info)
  {
    ListingSymmetric(s.gates, s.adjToAdd)
  }

  /** The node type of an and/or gate line. */
  function GateType(kind: GateKind): VarType
  {
    match kind
    case And => AndGate
    case Or => OrGate
  }

  /**
   * Whether `readGateVar` goes through a NOT node: `varId` is negative and `-varId` is not
   * a literal, that is, it is unmapped or mapped to a node past the literals.
   */
  predicate NeedsNotNode(m: map<int, int>, numVars: nat, varId: int)
  {
    varId < 0 && (-varId !in m || m[-varId] >= numVars)
  }

  // The steps.

  /** `colorMap.push_back(...)`: a new, empty color class for the next quantifier block. */
  function Opened(s: Info): (r: Info)
    ensures |r.colorMap| == |s.colorMap| + 1 && Flatten(r.colorMap) == Flatten(s.colorMap)
  {
    FlattenOpen(s.colorMap);
    s.(colorMap := s.colorMap + [[]])
  }

  /**
   * `storeVariable`: the literal nodes `v` and `-v`, each listing the other, appended;
   * `v` mapped to `numVars` and `-v` to `numVars + 1`; `v` added to the last color class.
   */
  function Stored(s: Info, v: int): (r: Info)
    requires |s.colorMap| > 0
    ensures |r.colorMap| == |s.colorMap| && Flatten(r.colorMap) == Flatten(s.colorMap) + [v]
    ensures Declaring(s) ==> Declaring(r)
  {
    var last := |s.colorMap| - 1;
    FlattenPush(s.colorMap, v);
    s.(gates := s.gates + [Gate(v, [-v], VarGate), Gate(-v, [v], VarGate)],
       colorMap := s.colorMap[last := s.colorMap[last] + [v]],
       fileToGraphMap := s.fileToGraphMap[v := s.numVars][-v := s.numVars + 1],
       numVars := s.numVars + 2)
  }

  /** A gate line's node: appended with no edges, the gate id mapped to it. */
  function GateAdded(s: Info, id: int, kind: GateKind): (r: Info)
    ensures InRange(s) ==> InRange(r)
    ensures |r.gates| == |s.gates| + 1 && r.gates[|s.gates|].fileVarId == id
  {
    s.(gates := s.gates + [Gate(id, [], GateType(kind))],
       fileToGraphMap := s.fileToGraphMap[id := |s.gates|])
  }

  /**
   * `readGateVar`: the gate at `gateIndex`, which stands for `gateId`, gets the literal
   * `varId`. Through a NOT node, which is created on first use, the NOT node and the gate
   * list each other and the NOT node's back-edge to `-varId` is queued; otherwise the gate
   * lists `varId` and `gateId` is queued for `varId`.
   */
  function LiteralRead(s: Info, gateId: int, gateIndex: nat, varId: int): (r: Info)
    requires InRange(s) && gateIndex < |s.gates|
    ensures InRange(r) && |s.gates| <= |r.gates| && s.fileToGraphMap.Keys <= r.fileToGraphMap.Keys
    ensures r.numVars == s.numVars && r.numColors == s.numColors && r.colorMap == s.colorMap
  {
    var m := s.fileToGraphMap;
    if NeedsNotNode(m, s.numVars, varId) then
      var t :=
        if varId in m then s
        else s.(gates := s.gates + [Gate(varId, [-varId], NotGate)],
                fileToGraphMap := m[varId := |s.gates|],
                adjToAdd := Queue(s.adjToAdd, -varId, varId));
      t.(gates := AddEdge(AddEdge(t.gates, t.fileToGraphMap[varId], gateId), gateIndex, varId))
    else
      s.(gates := AddEdge(s.gates, gateIndex, varId), adjToAdd := Queue(s.adjToAdd, varId, gateId))
  }

  /** Every queued key leads to a node (node 0 for a key that was never mapped). */
  predicate Targeted(s: Info)
  {
    PendingTargets(|s.gates|, s.fileToGraphMap, s.adjToAdd)
  }

  /** The back-edge pass over the queued keys in the order `order`; the queue is used up. */
  function BackEdgesDone(s: Info, order: seq<int>): (r: Info)
    requires Targeted(s) && forall k :: k in order ==> k in s.adjToAdd
    ensures |r.gates| == |s.gates| && r.adjToAdd == map[]
    ensures r.numVars == s.numVars && r.numColors == s.numColors && r.colorMap == s.colorMap
    ensures r.fileToGraphMap == s.fileToGraphMap
  {
    s.(gates := BackEdgesApplied(s.gates, s.fileToGraphMap, s.adjToAdd, order), adjToAdd := map[])
  }

  // The steps replayed over a document, in file order.

  /** `storeVariable` for each of `vars`, in order. */
  function StoredAll(s: Info, vars: seq<int>): (r: Info)
    requires |s.colorMap| > 0
    ensures |r.colorMap| == |s.colorMap| && r.numColors == s.numColors && r.adjToAdd == s.adjToAdd
    ensures Declaring(s) ==> Declaring(r)
    decreases |vars|
  {
    if vars == [] then s else Stored(StoredAll(s, vars[..|vars| - 1]), vars[|vars| - 1])
  }

  /** The quantifier section: per block a new class, its variables, one more color. */
  function Declared(blocks: seq<Block>): (r: Info)
    ensures |r.colorMap| == |blocks| && r.numColors == |blocks| && r.adjToAdd == map[] && Declaring(r)
    decreases |blocks|
  {
    if blocks == [] then Empty
    else
      var s := StoredAll(Opened(Declared(blocks[..|blocks| - 1])), blocks[|blocks| - 1].vars);
      s.(numColors := s.numColors + 1)
  }

  /** `readGateVar` for each of `lits`, in order. */
  function LiteralsRead(s: Info, gateId: int, gateIndex: nat, lits: seq<int>): (r: Info)
    requires InRange(s) && gateIndex < |s.gates|
    ensures InRange(r) && |s.gates| <= |r.gates| && s.fileToGraphMap.Keys <= r.fileToGraphMap.Keys
    ensures r.numVars == s.numVars && r.numColors == s.numColors && r.colorMap == s.colorMap
    decreases |lits|
  {
    if lits == [] then s
    else LiteralRead(LiteralsRead(s, gateId, gateIndex, lits[..|lits| - 1]), gateId, gateIndex, lits[|lits| - 1])
  }

  /** The gate section: per gate line its node, then its literals. */
  function GatesRead(s: Info, lines: seq<GateLine>): (r: Info)
    requires InRange(s)
    ensures InRange(r) && |s.gates| <= |r.gates| && s.fileToGraphMap.Keys <= r.fileToGraphMap.Keys
    ensures r.numVars == s.numVars && r.numColors == s.numColors && r.colorMap == s.colorMap
    decreases |lines|
  {
    if lines == [] then s
    else
      var prev := GatesRead(s, lines[..|lines| - 1]);
      var g := lines[|lines| - 1];
      LiteralsRead(GateAdded(prev, g.id, g.kind), g.id, |prev.gates|, g.lits)
  }

  /** Everything before the back-edge pass: the quantifier section, then the gate section. */
  function Collected(doc: Document): Info
  {
    GatesRead(Declared(doc.blocks), doc.gates)
  }
}
