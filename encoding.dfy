/**
 * The graph handed to saucy: the compressed adjacency arrays `adj` and `edg` and the color
 * of every node, as `main` computes them from the finished `QCIR_Info`.
 */
module Encoding {
  import opened Nodes

  /** The node indices `fileToGraphMap[id]` of the ids `ids`, in order. */
  function Targets(m: map<int, int>, ids: seq<int>): (r: seq<int>)
    ensures |r| == |ids|
    ensures forall p :: 0 <= p < |ids| ==> r[p] == Lookup(m, ids[p])
  {
    seq(|ids|, p requires 0 <= p < |ids| => Lookup(m, ids[p]))
  }

  /**
   * `adj` and `edg` hold the graph of `gates` in compressed form: one offset per node and a
   * final one equal to `|edg|`, node `i`'s neighbours being `edg[adj[i]..adj[i + 1]]`, the
   * node indices its ids map to.
   */
  predicate Encodes(gates: seq<Gate>, m: map<int, int>, adj: seq<int>, edg: seq<int>)
  {
    && |adj| == |gates| + 1 && adj[0] == 0 && adj[|gates|] == |edg|
    && forall i :: 0 <= i < |gates| ==> NodeEncoded(gates, m, adj, edg, i)
  }

  /** Node `i`'s slice of `edg` lies between its offset and the next one and holds its targets. */
  predicate NodeEncoded(gates: seq<Gate>, m: map<int, int>, adj: seq<int>, edg: seq<int>, i: nat)
    requires i < |gates| && |adj| == |gates| + 1
  {
    0 <= adj[i] <= adj[i + 1] <= |edg| && edg[adj[i]..adj[i + 1]] == Targets(m, gates[i].adj)
  }

  /** The neighbours of node `i` in the compressed graph: the node indices of its ids. */
  function Neighbours(gates: seq<Gate>, m: map<int, int>, adj: seq<int>, edg: seq<int>, i: nat): (r: seq<int>)
    requires Encodes(gates, m, adj, edg) && i < |gates|
    ensures r == Targets(m, gates[i].adj)
  {
    assert NodeEncoded(gates, m, adj, edg, i);
    edg[adj[i]..adj[i + 1]]
  }

  /** The targets of all nodes, node after node. */
  function Edges(gates: seq<Gate>, m: map<int, int>): seq<int>
  {
    if gates == [] then [] else Edges(gates[..|gates| - 1], m) + Targets(m, gates[|gates| - 1].adj)
  }

  /** The offset at which each node's targets start in `Edges`, and a final one. */
  function Offsets(gates: seq<Gate>, m: map<int, int>): (r: seq<int>)
    ensures |r| == |gates| + 1 && r[|gates|] == |Edges(gates, m)|
  {
    if gates == [] then [0] else Offsets(gates[..|gates| - 1], m) + [|Edges(gates, m)|]
  }

  /** The node-by-node layout is a compressed form of the graph. */
  lemma {:induction false} LayoutEncodes(gates: seq<Gate>, m: map<int, int>)
    ensures Encodes(gates, m, Offsets(gates, m), Edges(gates, m))
    decreases |gates|
  {
    if gates != [] {
      var n := |gates| - 1;
      var prefix := gates[..n];
      LayoutEncodes(prefix, m);
      var before, targets := Edges(prefix, m), Targets(m, gates[n].adj);
      var adj, edg := Offsets(gates, m), Edges(gates, m);
      assert adj == Offsets(prefix, m) + [|edg|] && edg == before + targets;
      AppendedSlices(before, targets);
      forall k | 0 <= k < |gates| ensures NodeEncoded(gates, m, adj, edg, k) {
        if k < n {
          assert NodeEncoded(prefix, m, Offsets(prefix, m), before, k);
        }
      }
    }
  }

  /**
   * The loop over `info.gates` in `main`: per node its offset into `edg`, then the node
   * index of each id it lists; the final offset `edg.size()` is pushed last.
   */
  method EncodeAdjacency(gates: seq<Gate>, m: map<int, int>) returns (adj: seq<int>, edg: seq<int>)
    ensures Encodes(gates, m, adj, edg)
  {
    adj := [];
    edg := [];
    var i := 0;
    while i < |gates|
      invariant i <= |gates| && adj + [|edg|] == Offsets(gates[..i], m) && edg == Edges(gates[..i], m)
    {
      assert gates[..i + 1][..i] == gates[..i];
      adj := adj + [|edg|];
      var ids := gates[i].adj;
      var p := 0;
      while p < |ids|
        invariant p <= |ids| && edg == Edges(gates[..i], m) + Targets(m, ids[..p])
      {
        assert Targets(m, ids[..p + 1]) == Targets(m, ids[..p]) + [Lookup(m, ids[p])];
        edg := edg + [Lookup(m, ids[p])];
        p := p + 1;
      }
      assert ids[..p] == ids;
      i := i + 1;
    }
    assert gates[..i] == gates;
    adj := adj + [|edg|];
    LayoutEncodes(gates, m);
  }

  /** Appending keeps the slices of the front and puts the appended part at its end. */
  lemma AppendedSlices(front: seq<int>, back: seq<int>)
    ensures forall a, b :: 0 <= a <= b <= |front| ==> (front + back)[a..b] == front[a..b]
    ensures (front + back)[|front|..|front| + |back|] == back
  {
  }

  /** Offsets never decrease. */
  lemma {:induction false} OffsetsRise(gates: seq<Gate>, m: map<int, int>, adj: seq<int>, edg: seq<int>, i: nat, j: nat)
    requires Encodes(gates, m, adj, edg) && i <= j <= |gates|
    ensures adj[i] <= adj[j]
    decreases j - i
  {
    if i < j {
      assert NodeEncoded(gates, m, adj, edg, i);
      OffsetsRise(gates, m, adj, edg, i + 1, j);
    }
  }

  /** No two nodes stand for the same file id. */
  predicate DistinctIds(ids: seq<int>)
  {
    forall i, j :: 0 <= i < j < |ids| ==> ids[i] != ids[j]
  }

  /** With distinct ids, the mapped index of a node's own id is that node. */
  lemma OwnIndex(gates: seq<Gate>, m: map<int, int>, i: nat)
    requires MapOwned(IdsOf(gates), m) && OwnersMapped(IdsOf(gates), m) && DistinctIds(IdsOf(gates))
    requires i < |gates|
    ensures Lookup(m, gates[i].fileVarId) == i
  {
    var ids := IdsOf(gates);
    assert ids[i] in m;
    var j := m[ids[i]];
    assert ids[j] == ids[i];
  }

  /** One direction of the undirected graph: if `i` lists `j`, then `j` lists `i`. */
  lemma NeighbourBack(gates: seq<Gate>, m: map<int, int>, adj: seq<int>, edg: seq<int>, i: nat, j: int)
    requires MapOwned(IdsOf(gates), m) && OwnersMapped(IdsOf(gates), m) && DistinctIds(IdsOf(gates))
    requires ListingSymmetric(gates, map[]) && Encodes(gates, m, adj, edg)
    requires i < |gates| && j in Neighbours(gates, m, adj, edg, i)
    ensures 0 <= j < |gates| && i in Neighbours(gates, m, adj, edg, j)
  {
    var ts := Targets(m, gates[i].adj);
    var p :| 0 <= p < |ts| && ts[p] == j;
    var x, y := gates[i].fileVarId, gates[i].adj[p];
    assert Listed(gates, map[], x, y);
    assert Listed(gates, map[], y, x);
    var q :| 0 <= q < |gates| && gates[q].fileVarId == y && x in gates[q].adj;
    OwnIndex(gates, m, q);
    OwnIndex(gates, m, i);
    var r :| 0 <= r < |gates[q].adj| && gates[q].adj[r] == x;
    assert Targets(m, gates[q].adj)[r] == i;
  }

  /**
   * With distinct node ids and a symmetric listing, the compressed graph is undirected:
   * `j` is a neighbour of `i` exactly when `i` is a neighbour of `j`, and every neighbour
   * is a node.
   */
  lemma Undirected(gates: seq<Gate>, m: map<int, int>, adj: seq<int>, edg: seq<int>)
    requires MapOwned(IdsOf(gates), m) && OwnersMapped(IdsOf(gates), m) && DistinctIds(IdsOf(gates))
    requires ListingSymmetric(gates, map[]) && Encodes(gates, m, adj, edg)
    ensures forall i, j :: 0 <= i < |gates| && j in Neighbours(gates, m, adj, edg, i) ==> 0 <= j < |gates|
    ensures forall i, j :: 0 <= i < |gates| && 0 <= j < |gates| ==>
      (j in Neighbours(gates, m, adj, edg, i) <==> i in Neighbours(gates, m, adj, edg, j))
  {
    forall i, j | 0 <= i < |gates| && j in Neighbours(gates, m, adj, edg, i) ensures 0 <= j < |gates| {
      NeighbourBack(gates, m, adj, edg, i, j);
    }
    forall i, j | 0 <= i < |gates| && 0 <= j < |gates|
      ensures j in Neighbours(gates, m, adj, edg, i) <==> i in Neighbours(gates, m, adj, edg, j)
    {
      if j in Neighbours(gates, m, adj, edg, i) {
        NeighbourBack(gates, m, adj, edg, i, j);
      }
      if i in Neighbours(gates, m, adj, edg, j) {
        NeighbourBack(gates, m, adj, edg, j, i);
      }
    }
  }

  // Colors.

  /** The color of a node past the literals: and, or and NOT gates after the block colors. */
  function GateColor(kind: VarType, numColors: nat): int
  {
    match kind
    case AndGate => numColors
    case OrGate => numColors + 1
    case NotGate => numColors + 2
    case VarGate => 0
  }

  /** The colors of the literal nodes: two nodes of color `c` for every variable of class `c`. */
  function LiteralColors(classes: seq<seq<int>>): (r: seq<int>)
    ensures |r| == 2 * |Flatten(classes)|
  {
    if classes == [] then []
    else
      var n := |classes| - 1;
      LiteralColors(classes[..n]) + seq(2 * |classes[n]|, _ => n)
  }

  /** Taking one more class adds its variables to the flattened prefix. */
  lemma FlattenStep(classes: seq<seq<int>>, c: nat)
    requires c < |classes|
    ensures Flatten(classes[..c + 1]) == Flatten(classes[..c]) + classes[c]
  {
    assert classes[..c + 1][..c] == classes[..c];
  }

  /** The variables of a prefix of the classes are no more than those of all classes. */
  lemma {:induction false} FlattenPrefix(classes: seq<seq<int>>, c: nat)
    requires c <= |classes|
    ensures |Flatten(classes[..c])| <= |Flatten(classes)|
    decreases |classes| - c
  {
    if c < |classes| {
      FlattenStep(classes, c);
      FlattenPrefix(classes, c + 1);
    } else {
      assert classes[..c] == classes;
    }
  }

  /** The literal colors of one more class. */
  lemma LiteralColorsStep(classes: seq<seq<int>>, c: nat)
    requires c < |classes|
    ensures LiteralColors(classes[..c + 1]) == LiteralColors(classes[..c]) + seq(2 * |classes[c]|, _ => c)
  {
    assert classes[..c + 1][..c] == classes[..c];
  }

  /**
   * The color loops of `main`: the two literal nodes of every variable get its class, in
   * class order; every later node gets its gate color, a node of another type keeping the
   * 0 the vector starts with.
   */
  method EncodeColors(gates: seq<Gate>, numColors: nat, colorMap: seq<seq<int>>) returns (colors: array<int>)
    requires 2 * |Flatten(colorMap)| <= |gates|
    ensures fresh(colors) && colors.Length == |gates|
    ensures colors[..2 * |Flatten(colorMap)|] == LiteralColors(colorMap)
    ensures forall i :: 2 * |Flatten(colorMap)| <= i < |gates| ==> colors[i] == GateColor(gates[i].kind, numColors)
  {
    colors := new int[|gates|](_ => 0);
    var colorIndex := ColorLiterals(colors, colorMap);
    ColorGates(colors, gates, numColors, colorIndex);
  }

  /** The first color loop: class after class, two nodes of the class color per variable. */
  method ColorLiterals(colors: array<int>, colorMap: seq<seq<int>>) returns (colorIndex: nat)
    requires 2 * |Flatten(colorMap)| <= colors.Length
    requires forall k :: 0 <= k < colors.Length ==> colors[k] == 0
    modifies colors
    ensures colorIndex == 2 * |Flatten(colorMap)| && colors[..colorIndex] == LiteralColors(colorMap)
    ensures forall k :: colorIndex <= k < colors.Length ==> colors[k] == 0
  {
    colorIndex := 0;
    var color := 0;
    while color < |colorMap|
      invariant color <= |colorMap| && colorIndex == 2 * |Flatten(colorMap[..color])| <= colors.Length
      invariant colors[..colorIndex] == LiteralColors(colorMap[..color])
      invariant forall k :: colorIndex <= k < colors.Length ==> colors[k] == 0
    {
      FlattenStep(colorMap, color);
      FlattenPrefix(colorMap, color + 1);
      LiteralColorsStep(colorMap, color);
      var next := FillClass(colors, colorIndex, color, |colorMap[color]|);
      assert colors[..next] == colors[..colorIndex] + colors[colorIndex..next];
      colorIndex := next;
      color := color + 1;
    }
    assert colorMap[..color] == colorMap;
  }

  /** The inner color loop: `count` variables of class `color`, two nodes each, from `start`. */
  method FillClass(colors: array<int>, start: nat, color: int, count: nat) returns (next: nat)
    requires start + 2 * count <= colors.Length
    requires forall k :: start <= k < colors.Length ==> colors[k] == 0
    modifies colors
    ensures next == start + 2 * count && colors[..start] == old(colors[..start])
    ensures colors[start..next] == seq(2 * count, _ => color)
    ensures forall k :: next <= k < colors.Length ==> colors[k] == 0
  {
    next := start;
    var i := 0;
    while i < count
      invariant i <= count && next == start + 2 * i
      invariant forall k :: 0 <= k < start ==> colors[k] == old(colors[k])
      invariant forall k :: start <= k < next ==> colors[k] == color
      invariant forall k :: next <= k < colors.Length ==> colors[k] == 0
    {
      colors[next] := color;
      next := next + 1;
      colors[next] := color;
      next := next + 1;
      i := i + 1;
    }
    assert colors[..start] == old(colors[..start]);
  }

  /** The second color loop: the gate color of every node past the literals. */
  method ColorGates(colors: array<int>, gates: seq<Gate>, numColors: nat, start: nat)
    requires colors.Length == |gates| && start <= colors.Length
    requires forall k :: start <= k < colors.Length ==> colors[k] == 0
    modifies colors
    ensures colors[..start] == old(colors[..start])
    ensures forall i :: start <= i < |gates| ==> colors[i] == GateColor(gates[i].kind, numColors)
  {
    var colorIndex := start;
    while colorIndex < colors.Length
      invariant start <= colorIndex <= colors.Length
      invariant forall k :: 0 <= k < start ==> colors[k] == old(colors[k])
      invariant forall k :: start <= k < colorIndex ==> colors[k] == GateColor(gates[k].kind, numColors)
      invariant forall k :: colorIndex <= k < colors.Length ==> colors[k] == 0
    {
      match gates[colorIndex].kind {
        case AndGate =>
          colors[colorIndex] := numColors;
        case OrGate =>
          colors[colorIndex] := numColors + 1;
        case NotGate =>
          colors[colorIndex] := numColors + 2;
        case VarGate =>
      }
      colorIndex := colorIndex + 1;
    }
    assert colors[..start] == old(colors[..start]);
  }

  /**
   * The `k`-th variable of class `c` is variable number `t` of the flattened classes, and
   * its two literal nodes `2t` and `2t + 1` have color `c`.
   */
  lemma {:induction false} LiteralColorAt(classes: seq<seq<int>>, c: nat, k: nat)
    requires c < |classes| && k < |classes[c]|
    ensures var t := |Flatten(classes[..c])| + k;
      && t < |Flatten(classes)| && Flatten(classes)[t] == classes[c][k]
      && LiteralColors(classes)[2 * t] == c && LiteralColors(classes)[2 * t + 1] == c
    decreases |classes|
  {
    var n := |classes| - 1;
    var prefix := classes[..n];
    var t := |Flatten(classes[..c])| + k;
    assert Flatten(classes) == Flatten(prefix) + classes[n];
    assert LiteralColors(classes) == LiteralColors(prefix) + seq(2 * |classes[n]|, _ => n);
    if c < n {
      assert prefix[..c] == classes[..c] && prefix[c] == classes[c];
      LiteralColorAt(prefix, c, k);
    } else {
      assert classes[..c] == prefix;
    }
  }

  /** Literal colors are class indices. */
  lemma {:induction false} LiteralColorsBelow(classes: seq<seq<int>>)
    ensures forall i :: 0 <= i < |LiteralColors(classes)| ==> 0 <= LiteralColors(classes)[i] < |classes|
    decreases |classes|
  {
    if classes != [] {
      LiteralColorsBelow(classes[..|classes| - 1]);
    }
  }

  /** Gate colors of and, or and NOT nodes are at least `numColors` and tell the three apart. */
  lemma GateColorsApart(numColors: nat, a: VarType, b: VarType)
    requires a != VarGate && b != VarGate
    ensures numColors <= GateColor(a, numColors) <= numColors + 2
    ensures GateColor(a, numColors) == GateColor(b, numColors) <==> a == b
  {
  }
}
