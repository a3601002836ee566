/**
 * A canonical writer for the subset of QCIR-G14 that the reader accepts. It is not part of
 * the tool; it states what the reader does on well-formed input: every block and gate line
 * written here reads back as itself, and so does a whole document.
 */
module QcirWriter {
  import opened Base
  import opened Text
  import opened QcirSyntax

  /** The decimal forms of `ids`. */
  function Tokens(ids: seq<int>): (toks: seq<string>)
    ensures |toks| == |ids| && forall k :: 0 <= k < |ids| ==> toks[k] == IntToString(ids[k])
  {
    seq(|ids|, k requires 0 <= k < |ids| => IntToString(ids[k]))
  }

  /** Ids separated by single commas, as in `forall(1,2,3)`. */
  function JoinCommas(ids: seq<int>): string
  {
    Join(Tokens(ids), ',')
  }

  function BlockText(b: Block): string
  {
    (if b.quant == Forall then "forall(" else "exists(") + JoinCommas(b.vars) + ")"
  }

  function KeywordText(k: GateKind): string
  {
    if k == And then "and" else "or"
  }

  function GateText(g: GateLine): string
  {
    IntToString(g.id) + " = " + KeywordText(g.kind) + "(" + JoinCommas(g.lits) + ")"
  }

  function OutputText(output: int): string
  {
    "output(" + IntToString(output) + ")"
  }

  function BlockLines(blocks: seq<Block>): seq<string>
  {
    seq(|blocks|, k requires 0 <= k < |blocks| => BlockText(blocks[k]))
  }

  function GateLines(gates: seq<GateLine>): seq<string>
  {
    seq(|gates|, k requires 0 <= k < |gates| => GateText(gates[k]))
  }

  /** A whole file: the header, one line per block, the output line, one line per gate. */
  function DocumentText(doc: Document, output: int): seq<string>
  {
    [Header] + BlockLines(doc.blocks) + [OutputText(output)] + GateLines(doc.gates)
  }

  /** Positions in a sequence made of one item, a run, another item and a second run. */
  lemma FourParts<T>(a: T, xs: seq<T>, b: T, ys: seq<T>)
    ensures |[a] + xs + [b] + ys| == |xs| + |ys| + 2
    ensures ([a] + xs + [b] + ys)[0] == a && ([a] + xs + [b] + ys)[|xs| + 1] == b
  {
  }

  lemma FourPartsFirstRun<T>(a: T, xs: seq<T>, b: T, ys: seq<T>, k: nat)
    requires 1 <= k <= |xs|
    ensures k < |[a] + xs + [b] + ys| && ([a] + xs + [b] + ys)[k] == xs[k - 1]
  {
  }

  predicate AllInt32(ids: seq<int>) { forall k :: 0 <= k < |ids| ==> InInt32(ids[k]) }

  /** A document the writer can produce and the reader can read back. */
  predicate Writable(doc: Document)
  {
    && (forall k :: 0 <= k < |doc.blocks| ==> |doc.blocks[k].vars| > 0 && AllInt32(doc.blocks[k].vars))
    && (forall k :: 0 <= k < |doc.gates| ==> InInt32(doc.gates[k].id) && AllInt32(doc.gates[k].lits))
  }

  lemma IntToStringAlphabet(n: int)
    ensures forall c :: c in IntToString(n) ==> IsDigit(c) || c == '-'
  {
    var s := IntToString(n);
    forall c | c in s ensures IsDigit(c) || c == '-' {
      var i :| 0 <= i < |s| && s[i] == c;
      if n < 0 && i > 0 { assert s[1..][i - 1] == c; }
    }
  }

  /** An id written by `IntToString` reads back as itself through `parseInt`. */
  lemma ReadIdOfIntToString(n: int, rest: string)
    requires InInt32(n) && (rest == [] || !IsDigit(rest[0]))
    ensures ReadId(IntToString(n) + rest) == Ok(n)
  {
    ParseIntOfIntToString(n, rest);
  }

  /** Tokens that each read back as an id read back as the whole list. */
  lemma ReadAllTokens(ids: seq<int>)
    requires AllInt32(ids)
    ensures ReadAll(Tokens(ids)) == Ok(ids)
  {
    forall k | 0 <= k < |ids| ensures ReadId(Tokens(ids)[k]) == Ok(ids[k]) {
      ReadIdOfIntToString(ids[k], "");
      assert IntToString(ids[k]) + "" == IntToString(ids[k]);
    }
    var r := ReadAll(Tokens(ids));
    assert r.Ok?;
    assert r.value == ids;
  }

  /** The decimal forms of ids hold only digits and '-'. */
  lemma TokensAlphabet(ids: seq<int>)
    ensures forall k, c :: 0 <= k < |ids| && c in Tokens(ids)[k] ==> IsDigit(c) || c == '-'
  {
    forall k | 0 <= k < |ids| ensures forall c :: c in Tokens(ids)[k] ==> IsDigit(c) || c == '-' {
      IntToStringAlphabet(ids[k]);
    }
  }

  /** A written id list holds no parenthesis, '=' or space. */
  lemma JoinCommasAlphabet(ids: seq<int>)
    ensures '(' !in JoinCommas(ids) && ')' !in JoinCommas(ids) && '#' !in JoinCommas(ids)
    ensures '=' !in JoinCommas(ids) && ' ' !in JoinCommas(ids)
    ensures |ids| > 0 ==> |JoinCommas(ids)| > 0
  {
    TokensAlphabet(ids);
    JoinFree(Tokens(ids), ',', '(');
    JoinFree(Tokens(ids), ',', ')');
    JoinFree(Tokens(ids), ',', '=');
    JoinFree(Tokens(ids), ',', ' ');
    JoinFree(Tokens(ids), ',', '#');
  }

  /** The comma loop over a written id list reads every id but the last and stops where the last one starts. */
  lemma ReadJoined(s: string, from: nat, ids: seq<int>, post: string)
    requires |ids| > 0 && AllInt32(ids) && ',' !in post
    requires from <= |s| && s[from..] == JoinCommas(ids) + post
    ensures ReadCommaTokens(s, from).Ok?
    ensures ReadCommaTokens(s, from).value.0 == ids[..|ids| - 1]
    ensures s[ReadCommaTokens(s, from).value.1..] == IntToString(ids[|ids| - 1]) + post
  {
    TokensAlphabet(ids);
    assert forall k :: 0 <= k < |ids| ==> ',' !in Tokens(ids)[k];
    PiecesOfJoin(Tokens(ids), ',', post);
    ReadAllTokens(ids[..|ids| - 1]);
    assert Tokens(ids[..|ids| - 1]) == Tokens(ids)[..|ids| - 1];
  }

  /** A quantifier line written by `BlockText` reads back as the same block. */
  lemma QuantifierLineRoundTrip(b: Block)
    requires |b.vars| > 0 && AllInt32(b.vars)
    ensures IsQuantifierLine(BlockText(b)) && ParseQuantifierLine(BlockText(b)) == Ok(b)
  {
    BlockLayout(b);
    QuantifierIdsRead(BlockText(b), b.vars);
  }

  /** A quantifier line whose ids are written after the '(' by `JoinCommas` reads them all back. */
  lemma QuantifierIdsRead(s: string, ids: seq<int>)
    requires |ids| > 0 && AllInt32(ids)
    requires IsQuantifierLine(s) && |s| > 7 && s[6] == '(' && s[7..] == JoinCommas(ids) + ")"
    ensures ParseQuantifierLine(s) == Ok(Block(if StartsWith(s, "forall") then Forall else Exists, ids))
  {
    var pos := |s| - |IntToString(ids[|ids| - 1])| - 1;
    QuantifierIdsSplit(s, ids, pos);
    SplitQuantifierLineRead(s, ids, pos);
  }

  /** Once the comma loop and the last id are known to read `ids`, the whole line reads as `ids`. */
  lemma SplitQuantifierLineRead(s: string, ids: seq<int>, pos: nat)
    requires |ids| > 0 && IsQuantifierLine(s) && |s| > 7 && s[6] == '('
    requires 7 <= pos < |s| && ReadCommaTokens(s, 7) == Ok((ids[..|ids| - 1], pos))
    requires Find(s, ')', pos) == Some(|s| - 1) && ReadId(s[pos..|s| - 1]) == Ok(ids[|ids| - 1])
    ensures ParseQuantifierLine(s) == Ok(Block(if StartsWith(s, "forall") then Forall else Exists, ids))
  {
    QuantifierLineAccepted(s, ids[..|ids| - 1], pos, |s| - 1, ids[|ids| - 1]);
    ButLastThenLast(ids);
  }

  /** The comma loop of a written quantifier line stops at the last id, which runs up to the ')'. */
  lemma QuantifierIdsSplit(s: string, ids: seq<int>, pos: int)
    requires |ids| > 0 && AllInt32(ids)
    requires |s| > 7 && s[7..] == JoinCommas(ids) + ")"
    requires pos == |s| - |IntToString(ids[|ids| - 1])| - 1
    ensures 7 <= pos < |s|
    ensures ReadCommaTokens(s, 7) == Ok((ids[..|ids| - 1], pos))
    ensures Find(s, ')', pos) == Some(|s| - 1) && ReadId(s[pos..|s| - 1]) == Ok(ids[|ids| - 1])
  {
    var last := IntToString(ids[|ids| - 1]);
    ReadJoined(s, 7, ids, ")");
    var r := ReadCommaTokens(s, 7).value;
    assert |s[r.1..]| == |last| + 1;
    assert r.1 == pos && r == (ids[..|ids| - 1], pos);
    LastToken(s, pos, last, ids[|ids| - 1]);
  }

  /** Where the parts of a written quantifier line lie. */
  lemma BlockLayout(b: Block)
    ensures |BlockText(b)| > 7 && BlockText(b)[6] == '('
    ensures BlockText(b)[7..] == JoinCommas(b.vars) + ")"
    ensures IsQuantifierLine(BlockText(b))
    ensures StartsWith(BlockText(b), "forall") <==> b.quant == Forall
  {
    var s := BlockText(b);
    var kw := if b.quant == Forall then "forall" else "exists";
    assert s == kw + "(" + (JoinCommas(b.vars) + ")");
    assert s[..6] == kw;
  }

  lemma ButLastThenLast(xs: seq<int>)
    requires |xs| > 0
    ensures xs[..|xs| - 1] + [xs[|xs| - 1]] == xs
  {
  }

  /** The last id of a quantifier line runs from `start` to the closing ')'. */
  lemma LastToken(s: string, start: nat, last: string, id: int)
    requires start + |last| + 1 == |s| && InInt32(id) && last == IntToString(id)
    requires s[start..] == last + ")"
    ensures Find(s, ')', start) == Some(|s| - 1)
    ensures ReadId(s[start..|s| - 1]) == Ok(id)
  {
    IntToStringAlphabet(id);
    forall i | start <= i < |s| - 1 ensures s[i] != ')' {
      assert s[i] == s[start..][i - start] == last[i - start];
    }
    assert s[|s| - 1] == s[start..][|last|];
    assert s[start..|s| - 1] == s[start..][..|last|];
    ReadIdOfIntToString(id, "");
    assert last + "" == last;
  }

  /** Where the parts of a written gate line lie: the id, " = ", the keyword, then the parenthesised literals. */
  lemma GateLayout(g: GateLine) returns (eq: nat, p: nat)
    ensures eq == |IntToString(g.id)| + 1 && p == eq + 2 + |KeywordText(g.kind)| && p < |GateText(g)|
    ensures Find(GateText(g), '=', 0) == Some(eq) && GateText(g)[..eq] == IntToString(g.id) + " "
    ensures Find(GateText(g), '(', 0) == Some(p) && GateText(g)[eq + 1..p] == " " + KeywordText(g.kind)
    ensures GateText(g)[p + 1..] == JoinCommas(g.lits) + ")"
    ensures Find(GateText(g), ')', 0) == Some(|GateText(g)| - 1)
  {
    var x := IntToString(g.id);
    var kw := KeywordText(g.kind);
    var j := JoinCommas(g.lits);
    var s := GateText(g);
    eq := |x| + 1;
    p := eq + 2 + |kw|;
    assert s == x + " = " + kw + "(" + j + ")";
    assert '=' !in x && '(' !in x && ')' !in x by { IntToStringAlphabet(g.id); }
    assert ')' !in j by { JoinCommasAlphabet(g.lits); }
    assert '(' !in kw && ')' !in kw;
    ShapeEquals(s, x, kw, j);
    ShapeOpen(s, x, kw, j);
    assert eq + 1 == |x| + 2 && p == |x| + 3 + |kw| && p + 1 == |x| + 4 + |kw|;
    ShapeClose(s, x, kw, j);
  }

  lemma ShapeEquals(s: string, x: string, kw: string, j: string)
    requires s == x + " = " + kw + "(" + j + ")" && '=' !in x
    ensures Find(s, '=', 0) == Some(|x| + 1) && s[..|x| + 1] == x + " "
  {
    assert s == (x + " ") + ['='] + (" " + kw + "(" + j + ")");
    FirstSeparator(s, '=', x + " ", " " + kw + "(" + j + ")");
  }

  lemma ShapeOpen(s: string, x: string, kw: string, j: string)
    requires s == x + " = " + kw + "(" + j + ")" && '(' !in x && '(' !in kw
    ensures |x| + 3 + |kw| < |s| && Find(s, '(', 0) == Some(|x| + 3 + |kw|)
    ensures s[|x| + 2..|x| + 3 + |kw|] == " " + kw && s[|x| + 4 + |kw|..] == j + ")"
  {
    assert s == (x + " = " + kw) + ['('] + (j + ")");
    FirstSeparator(s, '(', x + " = " + kw, j + ")");
    assert s[|x| + 2..|x| + 3 + |kw|] == (x + " = " + kw)[|x| + 2..];
  }

  lemma ShapeClose(s: string, x: string, kw: string, j: string)
    requires s == x + " = " + kw + "(" + j + ")" && ')' !in x && ')' !in kw && ')' !in j
    ensures Find(s, ')', 0) == Some(|s| - 1)
  {
    assert s == (x + " = " + kw + "(" + j) + [')'] + "";
    FirstSeparator(s, ')', x + " = " + kw + "(" + j, "");
  }

  /** The keyword between '=' and '(' reads back. */
  lemma KeywordRead(s: string, eq: nat, p: nat, k: GateKind)
    requires eq < p < |s| && Find(s, '(', 0) == Some(p) && s[eq + 1..p] == " " + KeywordText(k)
    ensures GateKeyword(s, eq) == KeywordText(k)
  {
    KeywordWithoutSpaces(k);
  }

  /** Spaces in front of a keyword are dropped. */
  lemma KeywordWithoutSpaces(k: GateKind)
    ensures RemoveSpaces(" " + KeywordText(k)) == KeywordText(k)
  {
    var kw := KeywordText(k);
    assert (" " + kw)[1..] == kw;
    NoSpacesKept(kw);
  }

  lemma {:induction false} NoSpacesKept(t: string)
    requires forall i :: 0 <= i < |t| ==> !IsSpace(t[i])
    ensures RemoveSpaces(t) == t
  {
    if t != [] {
      NoSpacesKept(t[1..]);
    }
  }

  /** A gate line written by `GateText` reads back as the same gate. */
  lemma GateLineRoundTrip(g: GateLine)
    requires InInt32(g.id) && AllInt32(g.lits)
    ensures ParseGateLine(GateText(g)) == Ok(g)
  {
    var eq := |IntToString(g.id)| + 1;
    GateHeadRoundTrip(g);
    GateLiteralsRoundTrip(g);
    GateLineAccepted(GateText(g), eq, g.id, g.kind, g.lits);
  }

  /** The id and the keyword of a written gate line read back. */
  lemma GateHeadRoundTrip(g: GateLine)
    requires InInt32(g.id)
    ensures var eq := |IntToString(g.id)| + 1;
      && eq < |GateText(g)| && Find(GateText(g), '=', 0) == Some(eq)
      && ReadId(GateText(g)[..eq]) == Ok(g.id)
      && GateKeyword(GateText(g), eq) == KeywordText(g.kind)
  {
    var s := GateText(g);
    var eq, p := GateLayout(g);
    ReadIdOfIntToString(g.id, " ");
    KeywordRead(s, eq, p, g.kind);
  }

  /** The literals of a written gate line read back, also when there are none. */
  lemma GateLiteralsRoundTrip(g: GateLine)
    requires AllInt32(g.lits)
    ensures ReadGateLiterals(GateText(g)) == Ok(g.lits)
  {
    var s := GateText(g);
    var eq, p := GateLayout(g);
    assert ParenInterior(s) == JoinCommas(g.lits) by {
      JoinCommasAlphabet(g.lits);
      InteriorRead(s, p, JoinCommas(g.lits));
    }
    LiteralsRead(s, p, g.lits);
  }

  /** With the first ')' last on the line, the parenthesised part is what the parentheses enclose. */
  lemma InteriorRead(s: string, p: nat, j: string)
    requires p < |s| && Find(s, '(', 0) == Some(p) && Find(s, ')', 0) == Some(|s| - 1)
    requires s[p + 1..] == j + ")"
    ensures ParenInterior(s) == j
  {
    assert s[p + 1..|s| - 1] == s[p + 1..][..|j|];
  }

  /** Literals written after the first '(' read back. */
  lemma LiteralsRead(s: string, p: nat, lits: seq<int>)
    requires AllInt32(lits) && p < |s| && Find(s, '(', 0) == Some(p)
    requires s[p + 1..] == JoinCommas(lits) + ")" && ParenInterior(s) == JoinCommas(lits)
    ensures ReadGateLiterals(s) == Ok(lits)
  {
    if lits == [] {
      NoLiteralsRead(s, p);
    } else {
      var n := |lits|;
      JoinCommasAlphabet(lits);
      ReadJoined(s, p + 1, lits, ")");
      var pos := ReadCommaTokens(s, p + 1).value.1;
      ReadIdOfIntToString(lits[n - 1], ")");
      assert JoinCommas(lits)[0] != ' ';
      GateLiteralsAccepted(s, p, lits[..n - 1], pos, lits[n - 1]);
      ButLastThenLast(lits);
    }
  }

  /** `and()` and `or()` have no literals. */
  lemma NoLiteralsRead(s: string, p: nat)
    requires p < |s| && Find(s, '(', 0) == Some(p) && s[p + 1..] == ")" && ParenInterior(s) == ""
    ensures ReadGateLiterals(s) == Ok([])
  {
    FindNone(")", ',', 0);
    assert Pieces(")", ',') == [];
    var r := ReadCommaTokens(s, p + 1);
    GateLiteralsEmpty(s, p, r.value.1);
  }

  /** A line that ends with ')' and holds no '#' is not skipped as a comment. */
  lemma ClosedLineNotComment(s: string)
    requires |s| > 0 && s[|s| - 1] == ')' && '#' !in s
    ensures !IsCommentLine(s)
  {
  }

  lemma BlockLineNotComment(b: Block)
    ensures !IsCommentLine(BlockText(b))
  {
    var s := BlockText(b);
    BlockLayout(b);
    JoinCommasAlphabet(b.vars);
    assert s == (if b.quant == Forall then "forall(" else "exists(") + JoinCommas(b.vars) + ")";
    ClosedLineNotComment(s);
  }

  /** The output line ends the quantifier section and starts the gate section. */
  lemma OutputLineRead(output: int)
    ensures !IsCommentLine(OutputText(output)) && !IsQuantifierLine(OutputText(output))
    ensures StartsWith(OutputText(output), "output")
  {
    var s := OutputText(output);
    IntToStringAlphabet(output);
    assert s[..6] == "output";
    ClosedLineNotComment(s);
  }

  lemma GateLinesRead(gates: seq<GateLine>)
    requires forall m :: 0 <= m < |gates| ==> InInt32(gates[m].id) && AllInt32(gates[m].lits)
    ensures forall m :: 0 <= m < |gates| ==> ParseGateLine(GateLines(gates)[m]) == Ok(gates[m])
  {
    forall m | 0 <= m < |gates| ensures ParseGateLine(GateLines(gates)[m]) == Ok(gates[m]) {
      GateLineRoundTrip(gates[m]);
    }
  }

  lemma BlockLinesRead(blocks: seq<Block>)
    requires forall m :: 0 <= m < |blocks| ==> |blocks[m].vars| > 0 && AllInt32(blocks[m].vars)
    ensures forall m :: 0 <= m < |blocks| ==> ClassifyHeadLine(BlockLines(blocks)[m]) == BlockLine(Ok(blocks[m]))
  {
    forall m | 0 <= m < |blocks| ensures ClassifyHeadLine(BlockLines(blocks)[m]) == BlockLine(Ok(blocks[m])) {
      BlockLineNotComment(blocks[m]);
      QuantifierLineRoundTrip(blocks[m]);
    }
  }

  /** The second loop, started after the second single line, reads the second run. */
  lemma ReadLinesOfSecondRun<T>(a: string, xs: seq<string>, b: string, ys: seq<string>,
                                parse: string -> Result<T, ParseError>, out: seq<T>)
    requires |ys| == |out| && forall m :: 0 <= m < |ys| ==> parse(ys[m]) == Ok(out[m])
    ensures ReadLines([a] + xs + [b] + ys, |xs| + 2, parse) == Ok(out)
  {
    var lines := [a] + xs + [b] + ys;
    ReadLinesShift(lines, |xs| + 2, |xs| + 2, parse);
    assert lines[|xs| + 2..] == ys;
    ReadLinesReads(ys, 0, parse, out);
  }

  /** The first loop, started after the first line, reads the first run and stops at the line after it. */
  lemma HeadLoopOfFirstRun(a: string, xs: seq<string>, b: string, ys: seq<string>,
                           classify: string -> HeadLine, blocks: seq<Block>, newlineAtEnd: bool)
    requires |xs| == |blocks| && forall m :: 0 <= m < |xs| ==> classify(xs[m]) == BlockLine(Ok(blocks[m]))
    requires classify(b) == OutputLine
    ensures HeadLoop([a] + xs + [b] + ys, 1, [], classify, newlineAtEnd) == Ok((blocks, |xs| + 1))
  {
    var lines := [a] + xs + [b] + ys;
    forall k | 1 <= k < |xs| + 1 ensures classify(lines[k]) == BlockLine(Ok(blocks[k - 1])) {
      FourPartsFirstRun(a, xs, b, ys, k);
    }
    FourParts(a, xs, b, ys);
    HeadLoopReads(lines, 1, |xs| + 1, blocks, classify, newlineAtEnd);
    assert blocks[..0] == [];
  }

  /** A written document has its header first and its output line right after the blocks. */
  lemma DocumentEnds(doc: Document, output: int)
    ensures |DocumentText(doc, output)| == |doc.blocks| + |doc.gates| + 2
    ensures StartsWith(DocumentText(doc, output)[0], Header)
  {
    FourParts(Header, BlockLines(doc.blocks), OutputText(output), GateLines(doc.gates));
    assert Header[..|Header|] == Header;
  }

  /** So the second loop reads all the gates of a written document. */
  lemma DocumentGatesRead(doc: Document, output: int)
    requires Writable(doc)
    ensures GateSection(DocumentText(doc, output), |doc.blocks| + 2) == Ok(doc.gates)
  {
    GateLinesRead(doc.gates);
    ReadLinesOfSecondRun(Header, BlockLines(doc.blocks), OutputText(output), GateLines(doc.gates), ParseGateLine, doc.gates);
  }

  /** And the first loop reads all its blocks and stops at the output line. */
  lemma DocumentHeadRead(doc: Document, output: int, newlineAtEnd: bool)
    requires Writable(doc)
    ensures HeadLoop(DocumentText(doc, output), 1, [], ClassifyHeadLine, newlineAtEnd) == Ok((doc.blocks, |doc.blocks| + 1))
  {
    BlockLinesRead(doc.blocks);
    OutputLineRead(output);
    HeadLoopOfFirstRun(Header, BlockLines(doc.blocks), OutputText(output), GateLines(doc.gates), ClassifyHeadLine, doc.blocks, newlineAtEnd);
  }

  /**
   * A written document reads back as itself, with or without a final line break; the
   * output id is not kept by the reader.
   */
  lemma DocumentRoundTrip(doc: Document, output: int, newlineAtEnd: bool)
    requires Writable(doc)
    ensures ParseDocument(DocumentText(doc, output), newlineAtEnd) == Ok(doc)
  {
    DocumentHeadRead(doc, output, newlineAtEnd);
    DocumentGatesRead(doc, output);
    DocumentEnds(doc, output);
  }

  /**
   * A file whose last line is skipped as a comment but starts with "output": without a
   * final line break the failing `getline` leaves that line in `s`, so it passes the
   * "output" check and the file has no gates; with one, `s` is empty and the file is
   * rejected.
   */
  lemma SkippedOutputAtEnd(b: Block, tail: string)
    requires |b.vars| > 0 && AllInt32(b.vars) && ')' !in tail
    ensures ParseDocument([Header, BlockText(b), "output" + tail], false) == Ok(Document([b], []))
    ensures ParseDocument([Header, BlockText(b), "output" + tail], true) == Err(ExpectedOutput)
  {
    var lines := [Header, BlockText(b), "output" + tail];
    assert StartsWith(lines[0], Header) by { assert Header[..|Header|] == Header; }
    assert ClassifyHeadLine(lines[1]) == BlockLine(Ok(b)) by {
      QuantifierLineRoundTrip(b);
      BlockLineNotComment(b);
    }
    assert ClassifyHeadLine(lines[2]) == Skipped by {
      OutputSkipped(tail);
    }
    assert StartsWith(lines[2], "output");
    forall newlineAtEnd: bool
      ensures HeadLoop(lines, 1, [], ClassifyHeadLine, newlineAtEnd) == HeadLoop(lines, 3, [b], ClassifyHeadLine, newlineAtEnd)
    {
      assert [] + [b] == [b];
      assert HeadLoop(lines, 2, [b], ClassifyHeadLine, newlineAtEnd) == HeadLoop(lines, 3, [b], ClassifyHeadLine, newlineAtEnd);
    }
    assert HeadLoop(lines, 3, [b], ClassifyHeadLine, false) == Ok(([b], 2));
    assert HeadLoop(lines, 3, [b], ClassifyHeadLine, true) == Err(ExpectedOutput);
    assert GateSection(lines, 3) == Ok([]);
    assert QuantifierSection(lines, 1, [], false) == Ok(Document([b], []));
    assert QuantifierSection(lines, 1, [], true) == Err(ExpectedOutput);
  }

  /** "output" followed by text without ')' is skipped as a comment. */
  lemma OutputSkipped(tail: string)
    requires ')' !in tail
    ensures IsCommentLine("output" + tail) && StartsWith("output" + tail, "output")
  {
    var last := "output" + tail;
    forall k | 0 <= k < |last| ensures last[k] != ')' {
      if k >= 6 { assert last[k] == tail[k - 6]; }
    }
    FindNone(last, ')', 0);
    assert last[0..] == last;
    assert last[..6] == "output";
  }
}
