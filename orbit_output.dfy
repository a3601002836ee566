/**
 * The last part of `main`: every orbit group saucy reported is mapped back to the QCIR
 * file's ids and written out. Gate nodes are dropped from each cycle; a cycle left with
 * literals is written as its ids in parentheses, separated by single spaces; a group that
 * wrote at least one cycle ends its line. What `std::cout` receives is modelled as the
 * text the loops build.
 */
module OrbitOutput {
  import opened Base
  import opened Text
  import opened Nodes
  import QcirWriter

  /** Every entry of `permutation` is a node index, as saucy reports them. */
  predicate NodeIndices(permutation: seq<int>)
  {
    forall k :: 0 <= k < |permutation| ==> 0 <= permutation[k]
  }

  /**
   * The file ids of the literal nodes of a cycle, in cycle order. Node indices are never
   * negative, so the source's `abs(varId) < numVars` is `varId < numVars`.
   */
  function VarOrbit(gates: seq<Gate>, numVars: nat, permutation: seq<int>): seq<int>
    requires numVars <= |gates| && NodeIndices(permutation)
  {
    if permutation == [] then []
    else
      var x := permutation[|permutation| - 1];
      VarOrbit(gates, numVars, permutation[..|permutation| - 1]) + (if x < numVars then [gates[x].fileVarId] else [])
  }

  /** Node `k` of `permutation` is a literal node standing for the id `v`. */
  predicate KeptAt(gates: seq<Gate>, numVars: nat, permutation: seq<int>, k: int, v: int)
    requires numVars <= |gates| && NodeIndices(permutation)
  {
    0 <= k < |permutation| && permutation[k] < numVars && gates[permutation[k]].fileVarId == v
  }

  /**
   * The filter keeps exactly the literal nodes: an id is written for a cycle exactly when
   * some literal node of the cycle stands for it.
   */
  lemma {:induction false} VarOrbitMembers(gates: seq<Gate>, numVars: nat, permutation: seq<int>, v: int)
    requires numVars <= |gates| && NodeIndices(permutation)
    ensures v in VarOrbit(gates, numVars, permutation) <==> exists k :: KeptAt(gates, numVars, permutation, k, v)
    decreases |permutation|
  {
    if permutation != [] {
      var n := |permutation| - 1;
      var init := permutation[..n];
      VarOrbitMembers(gates, numVars, init, v);
      if v in VarOrbit(gates, numVars, permutation) {
        if v in VarOrbit(gates, numVars, init) {
          var k :| KeptAt(gates, numVars, init, k, v);
          assert KeptAt(gates, numVars, permutation, k, v);
        } else {
          assert KeptAt(gates, numVars, permutation, n, v);
        }
      }
      if exists k :: KeptAt(gates, numVars, permutation, k, v) {
        var k :| KeptAt(gates, numVars, permutation, k, v);
        if k < n {
          assert KeptAt(gates, numVars, init, k, v);
        }
      }
    }
  }

  /** Nothing is written for a cycle exactly when it holds gate nodes only. */
  lemma {:induction false} VarOrbitEmpty(gates: seq<Gate>, numVars: nat, permutation: seq<int>)
    requires numVars <= |gates| && NodeIndices(permutation)
    ensures VarOrbit(gates, numVars, permutation) == [] <==> forall k :: 0 <= k < |permutation| ==> numVars <= permutation[k]
    decreases |permutation|
  {
    if permutation != [] {
      var n := |permutation| - 1;
      var init := permutation[..n];
      VarOrbitEmpty(gates, numVars, init);
      assert forall k :: 0 <= k < n ==> init[k] == permutation[k];
    }
  }

  /**
   * When the first `numVars` nodes are the literal pairs of the declared variables, every
   * id written for a cycle is a declared variable or its negation.
   */
  lemma VarOrbitDeclared(gates: seq<Gate>, numVars: nat, classes: seq<seq<int>>, permutation: seq<int>)
    requires LiteralLayout(IdsOf(gates), KindsOf(gates), numVars, classes) && NodeIndices(permutation)
    ensures forall v :: v in VarOrbit(gates, numVars, permutation) ==> v in Flatten(classes) || -v in Flatten(classes)
  {
    var vars := Flatten(classes);
    forall v | v in VarOrbit(gates, numVars, permutation) ensures v in vars || -v in vars {
      VarOrbitMembers(gates, numVars, permutation, v);
      var k :| KeptAt(gates, numVars, permutation, k, v);
      var x := permutation[k];
      var t := x / 2;
      assert IdsOf(gates)[x] == v;
      if x % 2 == 0 {
        assert x == 2 * t && vars[t] == v;
      } else {
        assert x == 2 * t + 1 && -vars[t] == v;
      }
    }
  }

  /** The filtering loop of `main`: the ids of the literal nodes of one cycle. */
  method FilterCycle(gates: seq<Gate>, numVars: nat, permutation: seq<int>) returns (varOrbit: seq<int>)
    requires numVars <= |gates| && NodeIndices(permutation)
    ensures varOrbit == VarOrbit(gates, numVars, permutation)
  {
    varOrbit := [];
    var i := 0;
    while i < |permutation|
      invariant i <= |permutation| && varOrbit == VarOrbit(gates, numVars, permutation[..i])
    {
      var varId := permutation[i];
      if varId < numVars {
        varOrbit := varOrbit + [gates[varId].fileVarId];
      }
      i := i + 1;
      assert permutation[..i][..i - 1] == permutation[..i - 1];
    }
    assert permutation[..i] == permutation;
  }

  /** Each id followed by a space, as the loop over all ids but the last writes them. */
  function Spaced(ids: seq<int>): string
  {
    if ids == [] then "" else Spaced(ids[..|ids| - 1]) + IntToString(ids[|ids| - 1]) + " "
  }

  /** A cycle as `main` writes it: `(`, the ids separated by single spaces, `)`. */
  function CycleText(ids: seq<int>): string
    requires ids != []
  {
    "(" + Spaced(ids[..|ids| - 1]) + IntToString(ids[|ids| - 1]) + ")"
  }

  lemma Assoc3<T>(a: seq<T>, b: seq<T>, c: seq<T>)
    ensures (a + b) + c == a + (b + c)
  {
  }

  /** Writing one cycle with the loop of `main`. */
  method RenderCycle(ids: seq<int>) returns (text: string)
    requires ids != []
    ensures text == CycleText(ids)
  {
    text := "(";
    var i := 0;
    while i < |ids| - 1
      invariant i <= |ids| - 1 && text == "(" + Spaced(ids[..i])
    {
      var word := IntToString(ids[i]);
      Assoc3("(", Spaced(ids[..i]), word + " ");
      assert ids[..i + 1][..i] == ids[..i];
      text := text + (word + " ");
      i := i + 1;
    }
    text := text + IntToString(ids[|ids| - 1]) + ")";
  }

  /** The decimal form of an integer holds no space and no line break. */
  lemma IntToStringPlain(n: int)
    ensures ' ' !in IntToString(n) && '\n' !in IntToString(n)
  {
    var s := IntToString(n);
    if n < 0 {
      assert forall k :: 1 <= k < |s| ==> s[1..][k - 1] == s[k];
    }
  }

  lemma JoinSnoc(parts: seq<string>, x: string, c: char)
    requires parts != []
    ensures Join(parts + [x], c) == Join(parts, c) + [c] + x
    decreases |parts|
  {
    if |parts| > 1 {
      assert (parts + [x])[1..] == parts[1..] + [x];
      JoinSnoc(parts[1..], x, c);
    }
  }

  /** The ids with a space after each but the last are the ids joined by single spaces. */
  lemma {:induction false} SpacedJoin(ids: seq<int>)
    requires ids != []
    ensures Spaced(ids[..|ids| - 1]) + IntToString(ids[|ids| - 1]) == Join(QcirWriter.Tokens(ids), ' ')
    decreases |ids|
  {
    var n := |ids| - 1;
    if n > 0 {
      var init := ids[..n];
      SpacedJoin(init);
      assert init[..n - 1] == ids[..n - 1];
      assert QcirWriter.Tokens(ids) == QcirWriter.Tokens(init) + [IntToString(ids[n])];
      JoinSnoc(QcirWriter.Tokens(init), IntToString(ids[n]), ' ');
    }
  }

  /**
   * A written cycle reads back as its ids: the text between the parentheses, cut at every
   * space, gives one word per id, and `stoi` of each word is that id.
   */
  lemma CycleTextReadsBack(ids: seq<int>)
    requires ids != []
    ensures var t := CycleText(ids);
      && |t| >= 2 && t[0] == '(' && t[|t| - 1] == ')'
      && var words := Pieces(t[1..|t| - 1], ' ') + [LastPiece(t[1..|t| - 1], ' ')];
      && |words| == |ids| && forall k :: 0 <= k < |ids| ==> ParseInt(words[k]) == Some(ids[k])
  {
    var toks := QcirWriter.Tokens(ids);
    var t := CycleText(ids);
    assert t[1..|t| - 1] == Join(toks, ' ') && t[0] == '(' && t[|t| - 1] == ')' by {
      var n := |ids| - 1;
      SpacedJoin(ids);
      Assoc3("(", Spaced(ids[..n]), IntToString(ids[n]));
    }
    TokensReadBack(ids);
    forall k | 0 <= k < |ids| ensures ParseInt(toks[k]) == Some(ids[k]) {
      ParseIntOfIntToString(ids[k], "");
      assert IntToString(ids[k]) + "" == toks[k];
    }
  }

  /** Ids joined by single spaces, cut at every space, give back their decimal forms. */
  lemma TokensReadBack(ids: seq<int>)
    requires ids != []
    ensures var toks := QcirWriter.Tokens(ids);
      Pieces(Join(toks, ' '), ' ') + [LastPiece(Join(toks, ' '), ' ')] == toks
  {
    var toks := QcirWriter.Tokens(ids);
    forall k | 0 <= k < |toks| ensures ' ' !in toks[k] {
      IntToStringPlain(ids[k]);
    }
    WordsOfJoin(toks, ' ');
  }

  /** Parts free of `c`, joined by `c` and cut at every `c`, come back as they were. */
  lemma WordsOfJoin(parts: seq<string>, c: char)
    requires parts != [] && forall k :: 0 <= k < |parts| ==> c !in parts[k]
    ensures Pieces(Join(parts, c), c) + [LastPiece(Join(parts, c), c)] == parts
  {
    PiecesOfJoin(parts, c, "");
    var n := |parts| - 1;
    assert Join(parts, c) + "" == Join(parts, c);
    assert parts[n] + "" == parts[n];
    assert parts[..n] + [parts[n]] == parts;
  }

  /** Every entry of every cycle of `group` is a node index. */
  predicate GroupNodes(group: seq<seq<int>>)
  {
    forall c :: 0 <= c < |group| ==> NodeIndices(group[c])
  }

  /** The cycles of a group that keep a literal, written one after the other. */
  function CyclesText(gates: seq<Gate>, numVars: nat, group: seq<seq<int>>): string
    requires numVars <= |gates| && GroupNodes(group)
  {
    if group == [] then ""
    else
      var ids := VarOrbit(gates, numVars, group[|group| - 1]);
      CyclesText(gates, numVars, group[..|group| - 1]) + (if ids == [] then "" else CycleText(ids))
  }

  /** Some cycle of the group keeps a literal: `foundOrbit` of `main`. */
  predicate Found(gates: seq<Gate>, numVars: nat, group: seq<seq<int>>)
    requires numVars <= |gates| && GroupNodes(group)
  {
    exists c :: 0 <= c < |group| && VarOrbit(gates, numVars, group[c]) != []
  }

  /** What `main` writes for one orbit group. */
  function GroupText(gates: seq<Gate>, numVars: nat, group: seq<seq<int>>): string
    requires numVars <= |gates| && GroupNodes(group)
  {
    CyclesText(gates, numVars, group) + (if Found(gates, numVars, group) then "\n" else "")
  }

  /** Writing one orbit group with the loop of `main`. */
  method RenderGroup(gates: seq<Gate>, numVars: nat, group: seq<seq<int>>) returns (text: string)
    requires numVars <= |gates| && GroupNodes(group)
    ensures text == GroupText(gates, numVars, group)
  {
    var foundOrbit := false;
    text := "";
    var c := 0;
    while c < |group|
      invariant c <= |group| && text == CyclesText(gates, numVars, group[..c])
      invariant foundOrbit <==> exists d :: 0 <= d < c && VarOrbit(gates, numVars, group[d]) != []
    {
      assert group[..c + 1][..c] == group[..c] && group[..c + 1][c] == group[c];
      var varOrbit := FilterCycle(gates, numVars, group[c]);
      if |varOrbit| != 0 {
        foundOrbit := true;
        var cycle := RenderCycle(varOrbit);
        text := text + cycle;
      }
      c := c + 1;
    }
    assert group[..c] == group;
    if foundOrbit {
      text := text + "\n";
    }
  }

  /** Every entry of every cycle of every group is a node index. */
  predicate OrbitNodes(orbits: seq<seq<seq<int>>>)
  {
    forall g :: 0 <= g < |orbits| ==> GroupNodes(orbits[g])
  }

  /** What `main` writes for all orbit groups, group after group. */
  function OrbitsText(gates: seq<Gate>, numVars: nat, orbits: seq<seq<seq<int>>>): string
    requires numVars <= |gates| && OrbitNodes(orbits)
  {
    if orbits == [] then ""
    else OrbitsText(gates, numVars, orbits[..|orbits| - 1]) + GroupText(gates, numVars, orbits[|orbits| - 1])
  }

  /** The output loop of `main` over all orbit groups. */
  method RenderOrbits(gates: seq<Gate>, numVars: nat, orbits: seq<seq<seq<int>>>) returns (out: string)
    requires numVars <= |gates| && OrbitNodes(orbits)
    ensures out == OrbitsText(gates, numVars, orbits)
  {
    out := "";
    var g := 0;
    while g < |orbits|
      invariant g <= |orbits| && out == OrbitsText(gates, numVars, orbits[..g])
    {
      assert orbits[..g + 1][..g] == orbits[..g] && orbits[..g + 1][g] == orbits[g];
      var text := RenderGroup(gates, numVars, orbits[g]);
      out := out + text;
      g := g + 1;
    }
    assert orbits[..g] == orbits;
  }

  // The output as lines.

  /** A written cycle holds no line break. */
  lemma CycleTextOneLine(ids: seq<int>)
    requires ids != []
    ensures '\n' !in CycleText(ids)
  {
    var n := |ids| - 1;
    var toks := QcirWriter.Tokens(ids);
    forall k | 0 <= k < |toks| ensures '\n' !in toks[k] {
      IntToStringPlain(ids[k]);
    }
    JoinFree(toks, ' ', '\n');
    SpacedJoin(ids);
    Assoc3("(", Spaced(ids[..n]), IntToString(ids[n]));
  }

  /** The written cycles of a group hold no line break. */
  lemma {:induction false} CyclesTextOneLine(gates: seq<Gate>, numVars: nat, group: seq<seq<int>>)
    requires numVars <= |gates| && GroupNodes(group)
    ensures '\n' !in CyclesText(gates, numVars, group)
    decreases |group|
  {
    if group != [] {
      CyclesTextOneLine(gates, numVars, group[..|group| - 1]);
      var ids := VarOrbit(gates, numVars, group[|group| - 1]);
      if ids != [] {
        CycleTextOneLine(ids);
      }
    }
  }

  /** The groups that write a line, each as the text of its line. */
  function Lines(gates: seq<Gate>, numVars: nat, orbits: seq<seq<seq<int>>>): seq<string>
    requires numVars <= |gates| && OrbitNodes(orbits)
  {
    if orbits == [] then []
    else
      var group := orbits[|orbits| - 1];
      Lines(gates, numVars, orbits[..|orbits| - 1])
        + (if Found(gates, numVars, group) then [CyclesText(gates, numVars, group)] else [])
  }

  /** A group without a literal writes nothing at all. */
  lemma {:induction false} SilentGroup(gates: seq<Gate>, numVars: nat, group: seq<seq<int>>)
    requires numVars <= |gates| && GroupNodes(group) && !Found(gates, numVars, group)
    ensures GroupText(gates, numVars, group) == ""
    decreases |group|
  {
    if group != [] {
      var init := group[..|group| - 1];
      assert !Found(gates, numVars, init) by {
        forall c | 0 <= c < |init| ensures VarOrbit(gates, numVars, init[c]) == [] {
          assert init[c] == group[c];
        }
      }
      SilentGroup(gates, numVars, init);
    }
  }

  /**
   * The output is one line per group that has a cycle through a literal node, in group
   * order: cut at every line break it gives exactly the written cycles of those groups,
   * and nothing follows the last line break.
   */
  lemma {:induction false} OutputLines(gates: seq<Gate>, numVars: nat, orbits: seq<seq<seq<int>>>)
    requires numVars <= |gates| && OrbitNodes(orbits)
    ensures Pieces(OrbitsText(gates, numVars, orbits), '\n') == Lines(gates, numVars, orbits)
    ensures LastPiece(OrbitsText(gates, numVars, orbits), '\n') == ""
    decreases |orbits|
  {
    if orbits != [] {
      var init := orbits[..|orbits| - 1];
      var group := orbits[|orbits| - 1];
      OutputLines(gates, numVars, init);
      var before := OrbitsText(gates, numVars, init);
      if Found(gates, numVars, group) {
        var line := CyclesText(gates, numVars, group);
        CyclesTextOneLine(gates, numVars, group);
        PiecesAppendLine(before, line);
        Assoc3(before, line, "\n");
        assert OrbitsText(gates, numVars, orbits) == before + (line + "\n");
      } else {
        SilentGroup(gates, numVars, group);
        assert OrbitsText(gates, numVars, orbits) == before;
      }
    }
  }

  /** Text that ends at a line break, followed by one more line: one more piece. */
  lemma {:induction false} PiecesAppendLine(before: string, line: string)
    requires LastPiece(before, '\n') == "" && '\n' !in line
    ensures Pieces(before + line + "\n", '\n') == Pieces(before, '\n') + [line]
    ensures LastPiece(before + line + "\n", '\n') == ""
    decreases |before|
  {
    var t := before + line + "\n";
    match Find(before, '\n', 0)
    case None =>
      assert before == [];
      assert t == line + ['\n'] + [];
      FirstSeparator(t, '\n', line, []);
      assert Pieces(t, '\n') == [line] + Pieces([], '\n');
    case Some(to) =>
      var u := before[to + 1..];
      Assoc3(before, line, "\n");
      FindPrefix(before, line + "\n", to);
      assert t[..to] == before[..to];
      assert t[to + 1..] == u + line + "\n" by {
        Assoc3(u, line, "\n");
      }
      PiecesAppendLine(u, line);
      assert Pieces(t, '\n') == [before[..to]] + (Pieces(u, '\n') + [line]);
      Assoc3([before[..to]], Pieces(u, '\n'), [line]);
  }

  /** The first `c` of a text is also the first `c` of that text with more appended. */
  lemma FindPrefix(t: string, more: string, to: nat)
    requires Find(t, '\n', 0) == Some(to)
    ensures Find(t + more, '\n', 0) == Some(to) && (t + more)[..to] == t[..to]
  {
    assert (t + more)[to] == '\n';
    forall i | 0 <= i < to ensures (t + more)[i] != '\n' {
      assert (t + more)[i] == t[i];
    }
  }
}
