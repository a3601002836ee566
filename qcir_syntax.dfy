/**
 * The line-level reader of `parseQCIRFile`: which lines of a QCIR-G14 file are skipped,
 * how a quantifier line and a gate line are cut into signed ids, and which errors end
 * the run. It produces a `Document`: the quantifier blocks and gate lines in file order.
 * Building the graph from a `Document` is in module Circuit.
 */
module QcirSyntax {
  import opened Base
  import opened Text

  /** The diagnostics `printErrAndExit` reports (the line number is not modelled). */
  datatype ParseError =
    | BadHeader           // first line does not start with "#QCIR-G14"
    | ExpectedOpenParen   // the character after forall/exists is not '('
    | MissingCloseParen   // no ')' after the last comma of a quantifier line
    | NotAnInteger        // a token in which stoi finds no digits
    | IdOutOfRange        // a token stoi rejects as outside the 32-bit range
    | ExpectedOutput      // the line after the quantifier blocks does not start with "output"
    | MissingEquals       // a gate line without '='
    | UnsupportedGate     // a gate keyword other than "and" and "or"

  datatype Quantifier = Forall | Exists

  /** One quantifier line; the graph only uses its position (its color), not its quantifier. */
  datatype Block = Block(quant: Quantifier, vars: seq<int>)

  datatype GateKind = And | Or

  datatype GateLine = GateLine(id: int, kind: GateKind, lits: seq<int>)

  datatype Document = Document(blocks: seq<Block>, gates: seq<GateLine>)

  const Header := "#QCIR-G14"

  predicate InInt32(v: int) { -0x8000_0000 <= v <= 0x7fff_ffff }

  predicate StartsWith(s: string, p: string) { |p| <= |s| && s[..|p|] == p }

  predicate IsQuantifierLine(s: string) { StartsWith(s, "forall") || StartsWith(s, "exists") }

  /**
   * The comment test of the quantifier section: a line is skipped when its first '#'
   * comes no later than its first ')', where a missing character counts as `npos`,
   * the largest position. So a line with neither character is skipped too.
   */
  predicate IsCommentLine(s: string)
  {
    var c := Find(s, '#', 0);
    var q := Find(s, ')', 0);
    match (c, q)
    case (None, None) => true
    case (None, Some(_)) => false
    case (Some(j), None) => true
    case (Some(j), Some(k)) => j <= k
  }

  /** A line is skipped exactly when it has no ')' or a '#' comes before its first ')'. */
  lemma CommentLineMeaning(s: string)
    ensures IsCommentLine(s) <==>
      (forall i :: 0 <= i < |s| ==> s[i] != ')') ||
      (exists j :: 0 <= j < |s| && s[j] == '#' && forall i :: 0 <= i < j ==> s[i] != ')')
  {
  }

  /** `parseInt`: `stoi` on a token, failing when it has no digits or leaves the 32-bit range. */
  function ReadId(tok: string): (r: Result<int, ParseError>)
    ensures r.Ok? <==> (ParseInt(tok).Some? && InInt32(ParseInt(tok).value))
    ensures r.Ok? ==> r.value == ParseInt(tok).value
    ensures r.Err? ==> r.error == (if ParseInt(tok).None? then NotAnInteger else IdOutOfRange)
  {
    match ParseInt(tok)
    case None => Err(NotAnInteger)
    case Some(v) => if InInt32(v) then Ok(v) else Err(IdOutOfRange)
  }

  /** `parseInt` on each token in order, stopping at the first one that fails. */
  function ReadAll(toks: seq<string>): (r: Result<seq<int>, ParseError>)
    ensures r.Ok? <==> forall k :: 0 <= k < |toks| ==> ReadId(toks[k]).Ok?
    ensures r.Ok? ==> |r.value| == |toks| && forall k :: 0 <= k < |toks| ==> r.value[k] == ReadId(toks[k]).value
    ensures r.Err? ==> r.error == NotAnInteger || r.error == IdOutOfRange
  {
    if toks == [] then Ok([])
    else
      var id :- ReadId(toks[0]);
      var rest :- ReadAll(toks[1..]);
      Ok([id] + rest)
  }

  /**
   * The `while ((to = s.find(',', from)) != npos)` loops: the id before each ',' from
   * `from` on, read in order until one fails, and the position just after the last ','.
   */
  function ReadCommaTokens(s: string, from: nat): Result<(seq<int>, nat), ParseError>
    requires from <= |s|
  {
    match ReadAll(Pieces(s[from..], ','))
    case Err(e) => Err(e)
    case Ok(ids) => Ok((ids, LastPieceStart(s, from)))
  }

  /** The position just after the last ',' at or after `from` (`from` itself when there is none). */
  function LastPieceStart(s: string, from: nat): (pos: nat)
    requires from <= |s|
    ensures from <= pos <= |s| && s[pos..] == LastPiece(s[from..], ',')
  {
    var last := LastPiece(s[from..], ',');
    LastPieceIsSuffix(s[from..], ',');
    SuffixOfSuffix(s, from, |last|);
    |s| - |last|
  }

  /**
   * A quantifier line `forall(v1,...,vk)` or `exists(v1,...,vk)`: '(' must be the 7th
   * character, each id before a comma is read, and the last id runs up to the first ')'
   * after the last comma.
   */
  function ParseQuantifierLine(s: string): Result<Block, ParseError>
    requires IsQuantifierLine(s)
  {
    if |s| <= 6 || s[6] != '(' then Err(ExpectedOpenParen)
    else
      var toks :- ReadCommaTokens(s, 7);
      match Find(s, ')', toks.1)
      case None => Err(MissingCloseParen)
      case Some(to) =>
        var last :- ReadId(s[toks.1..to]);
        Ok(Block(if StartsWith(s, "forall") then Forall else Exists, toks.0 + [last]))
  }

  /**
   * What a quantifier line reads as: '(' must follow the keyword, the ids before the
   * commas and the one after the last comma all read, and a ')' must follow the last comma.
   */
  lemma QuantifierLineMeaning(s: string)
    requires IsQuantifierLine(s)
    ensures ParseQuantifierLine(s) == Err(ExpectedOpenParen) <==> (|s| <= 6 || s[6] != '(')
    ensures ParseQuantifierLine(s) == Err(MissingCloseParen) ==>
      |s| > 6 && s[6] == '(' && ')' !in LastPiece(s[7..], ',')
    ensures (|s| > 6 && s[6] == '(' && ReadAll(Pieces(s[7..], ',')).Ok? && ')' !in LastPiece(s[7..], ',')) ==>
      ParseQuantifierLine(s) == Err(MissingCloseParen)
    ensures ParseQuantifierLine(s).Ok? ==> |ParseQuantifierLine(s).value.vars| == |Pieces(s[7..], ',')| + 1
    ensures ParseQuantifierLine(s).Ok? ==> forall k :: 0 <= k < |Pieces(s[7..], ',')| ==>
      ReadId(Pieces(s[7..], ',')[k]) == Ok(ParseQuantifierLine(s).value.vars[k])
    ensures ParseQuantifierLine(s).Ok? ==>
      ParseQuantifierLine(s).value.quant == (if StartsWith(s, "forall") then Forall else Exists)
  {
    if |s| > 6 && s[6] == '(' {
      var toks := ReadCommaTokens(s, 7);
      if toks.Ok? {
        FindNone(s, ')', toks.value.1);
      }
    }
  }

  /** A quantifier line is accepted once its ids before the commas and its last id read. */
  lemma QuantifierLineAccepted(s: string, vs: seq<int>, pos: nat, to: nat, last: int)
    requires IsQuantifierLine(s) && |s| > 6 && s[6] == '('
    requires ReadCommaTokens(s, 7) == Ok((vs, pos)) && Find(s, ')', pos) == Some(to)
    requires pos <= to && ReadId(s[pos..to]) == Ok(last)
    ensures ParseQuantifierLine(s) == Ok(Block(if StartsWith(s, "forall") then Forall else Exists, vs + [last]))
  {
  }

  /** `remove_if(..., isspace)`: the characters of `s` that are not white space, in order. */
  function RemoveSpaces(s: string): (r: string)
    ensures |r| <= |s|
    ensures forall c :: c in r <==> c in s && !IsSpace(c)
  {
    if s == [] then []
    else (if IsSpace(s[0]) then [] else [s[0]]) + RemoveSpaces(s[1..])
  }

  /**
   * The gate keyword: from after '=' up to the first '(' of the line. When that '(' is
   * missing or comes before '=', the length `find('(') - eqIndex - 1` wraps around as a
   * `size_t` and `substr` takes the rest of the line.
   */
  function GateKeyword(s: string, eq: nat): string
    requires eq < |s|
  {
    var p := Find(s, '(', 0);
    RemoveSpaces(if p.Some? && p.value > eq then s[eq + 1..p.value] else s[eq + 1..])
  }

  /**
   * `s.substr(startParPos + 1, endParPos - startParPos - 1)` with both positions taken
   * from the start of the line; `npos + 1` wraps to 0 and a wrapped length takes the rest.
   */
  function ParenInterior(s: string): string
  {
    match (Find(s, '(', 0), Find(s, ')', 0))
    case (None, None) => s
    case (None, Some(q)) => s[..q]
    case (Some(p), None) => s[p + 1..]
    case (Some(p), Some(q)) => if q > p then s[p + 1..q] else s[p + 1..]
  }

  /** `find_first_not_of(' ') != npos`. */
  predicate HasNonBlank(t: string) { exists i :: 0 <= i < |t| && t[i] != ' ' }

  /**
   * A gate line `id = and(l1,...,lk)` or `id = or(l1,...,lk)`. The id is what `stoi`
   * reads before '='. Literals are read from after the first '(' (from the start of the
   * line when there is none); the last one is read only when the parenthesised part holds
   * a character other than a space, and then runs to the end of the line.
   */
  function ParseGateLine(s: string): Result<GateLine, ParseError>
  {
    match Find(s, '=', 0)
    case None => Err(MissingEquals)
    case Some(eq) => ParseGateAt(s, eq)
  }

  /** The rest of a gate line once its first '=' is known to be at `eq`. */
  function ParseGateAt(s: string, eq: nat): Result<GateLine, ParseError>
    requires eq < |s| && s[eq] == '='
  {
    var id :- ReadId(s[..eq]);
    var name := GateKeyword(s, eq);
    if name != "and" && name != "or" then Err(UnsupportedGate)
    else
      var lits :- ReadGateLiterals(s);
      Ok(GateLine(id, if name == "and" then And else Or, lits))
  }

  /**
   * What a gate line reads as: it fails for want of '=' exactly when it has none; otherwise
   * its id is what `stoi` reads before the first '=' and its keyword is "and" or "or".
   */
  lemma GateLineMeaning(s: string)
    ensures ParseGateLine(s) == Err(MissingEquals) <==> forall i :: 0 <= i < |s| ==> s[i] != '='
    ensures ParseGateLine(s) == Err(UnsupportedGate) ==>
      (exists eq :: 0 <= eq < |s| && s[eq] == '=' && GateKeyword(s, eq) != "and" && GateKeyword(s, eq) != "or")
    ensures ParseGateLine(s).Ok? ==>
      (exists eq :: 0 <= eq < |s| && s[eq] == '=' &&
        (forall i :: 0 <= i < eq ==> s[i] != '=') &&
        ParseInt(s[..eq]) == Some(ParseGateLine(s).value.id) &&
        GateKeyword(s, eq) == (if ParseGateLine(s).value.kind == And then "and" else "or"))
  {
    match Find(s, '=', 0)
    case None =>
      FindNone(s, '=', 0);
    case Some(eq) =>
      GateAtMeaning(s, eq);
  }

  lemma GateAtMeaning(s: string, eq: nat)
    requires Find(s, '=', 0) == Some(eq) && eq < |s|
    ensures s[eq] == '=' && forall i :: 0 <= i < eq ==> s[i] != '='
    ensures ParseGateLine(s) != Err(MissingEquals)
    ensures ParseGateLine(s) == Err(UnsupportedGate) ==> GateKeyword(s, eq) != "and" && GateKeyword(s, eq) != "or"
    ensures ParseGateLine(s).Ok? ==> ParseInt(s[..eq]) == Some(ParseGateLine(s).value.id)
    ensures ParseGateLine(s).Ok? ==> GateKeyword(s, eq) == (if ParseGateLine(s).value.kind == And then "and" else "or")
  {
    GateAtReads(s, eq);
  }

  lemma GateAtReads(s: string, eq: nat)
    requires eq < |s| && s[eq] == '='
    ensures ParseGateAt(s, eq) != Err(MissingEquals)
    ensures ParseGateAt(s, eq) == Err(UnsupportedGate) ==> GateKeyword(s, eq) != "and" && GateKeyword(s, eq) != "or"
    ensures ParseGateAt(s, eq).Ok? ==> ParseInt(s[..eq]) == Some(ParseGateAt(s, eq).value.id)
    ensures ParseGateAt(s, eq).Ok? ==> GateKeyword(s, eq) == (if ParseGateAt(s, eq).value.kind == And then "and" else "or")
  {
    var name := GateKeyword(s, eq);
    match ReadId(s[..eq])
    case Err(_) =>
    case Ok(id) =>
      if name == "and" || name == "or" {
        var lits := ReadGateLiterals(s);
        assert lits.Err? ==> lits.error != MissingEquals && lits.error != UnsupportedGate;
      }
  }

  /** A gate line is accepted once its id, its keyword and its literals read. */
  lemma GateLineAccepted(s: string, eq: nat, id: int, kind: GateKind, lits: seq<int>)
    requires Find(s, '=', 0) == Some(eq) && eq < |s|
    requires ReadId(s[..eq]) == Ok(id)
    requires GateKeyword(s, eq) == (if kind == And then "and" else "or")
    requires ReadGateLiterals(s) == Ok(lits)
    ensures ParseGateLine(s) == Ok(GateLine(id, kind, lits))
  {
  }

  /** The literals of a gate line whose comma loop and last token both read. */
  lemma GateLiteralsAccepted(s: string, p: nat, vs: seq<int>, pos: nat, last: int)
    requires Find(s, '(', 0) == Some(p) && p < |s|
    requires ReadCommaTokens(s, p + 1) == Ok((vs, pos)) && pos <= |s|
    requires HasNonBlank(ParenInterior(s)) && ReadId(s[pos..]) == Ok(last)
    ensures ReadGateLiterals(s) == Ok(vs + [last])
  {
    assert LiteralsStart(s) == p + 1;
    LastLiteralRead(s, vs, pos, last);
  }

  lemma LastLiteralRead(s: string, vs: seq<int>, pos: nat, last: int)
    requires pos <= |s| && HasNonBlank(ParenInterior(s)) && ReadId(s[pos..]) == Ok(last)
    ensures ReadLastLiteral(s, vs, pos) == Ok(vs + [last])
  {
  }

  /** The literals of a gate line with nothing between its parentheses. */
  lemma GateLiteralsEmpty(s: string, p: nat, pos: nat)
    requires Find(s, '(', 0) == Some(p) && p < |s|
    requires ReadCommaTokens(s, p + 1) == Ok(([], pos))
    requires !HasNonBlank(ParenInterior(s))
    ensures ReadGateLiterals(s) == Ok([])
  {
    assert LiteralsStart(s) == p + 1;
  }

  /**
   * The literals of a gate line: the ids before each comma from after the first '(' on
   * (from the start of the line when there is none), then, only when the parenthesised
   * part holds a character other than a space, the id that runs to the end of the line.
   */
  function ReadGateLiterals(s: string): (r: Result<seq<int>, ParseError>)
    ensures r.Err? ==> r.error == NotAnInteger || r.error == IdOutOfRange
  {
    var toks :- ReadCommaTokens(s, LiteralsStart(s));
    ReadLastLiteral(s, toks.0, toks.1)
  }

  /** Just after the first '('; `npos + 1` wraps to 0 when there is none. */
  function LiteralsStart(s: string): (from: nat)
    ensures from <= |s|
  {
    match Find(s, '(', 0)
    case None => 0
    case Some(p) => p + 1
  }

  /** The id after the last comma, read only when the parenthesised part is not blank. */
  function ReadLastLiteral(s: string, ids: seq<int>, pos: nat): Result<seq<int>, ParseError>
    requires pos <= |s|
  {
    if HasNonBlank(ParenInterior(s)) then
      var last :- ReadId(s[pos..]);
      Ok(ids + [last])
    else
      Ok(ids)
  }

  /**
   * A gate with nothing but spaces between its first '(' and its first ')' has no
   * literals: the blank interior skips the last id, and a comma after ')' makes the first
   * id start with ')', which `stoi` rejects.
   */
  lemma BlankParensNoLiterals(s: string, p: nat, q: nat)
    requires Find(s, '(', 0) == Some(p) && Find(s, ')', 0) == Some(q) && p < q
    requires forall i :: p < i < q ==> s[i] == ' '
    ensures ReadGateLiterals(s) == Ok([]) || ReadGateLiterals(s) == Err(NotAnInteger)
  {
    assert ParenInterior(s) == s[p + 1..q];
    assert !HasNonBlank(s[p + 1..q]);
    var t := s[p + 1..];
    forall i | 0 <= i < q - p - 1 ensures t[i] == ' ' {
      assert t[i] == s[p + 1 + i];
    }
    assert t[q - p - 1] == s[q];
    SpacesThenParenPieces(t, q - p - 1);
  }

  /** Text that starts with spaces and ')': its first comma-separated token is not a number. */
  lemma SpacesThenParenPieces(t: string, m: nat)
    requires m < |t| && t[m] == ')'
    requires forall i :: 0 <= i < m ==> t[i] == ' '
    ensures Pieces(t, ',') == [] || ReadAll(Pieces(t, ',')) == Err(NotAnInteger)
  {
    match Find(t, ',', 0)
    case None =>
    case Some(to) =>
      assert to > m;
      var tok := t[..to];
      SpacesThenParen(tok, m);
      assert Pieces(t, ',')[0] == tok;
  }

  /** `stoi` finds no digits in a token made of spaces followed by ')'. */
  lemma SpacesThenParen(tok: string, m: nat)
    requires m < |tok| && tok[m] == ')'
    requires forall i :: 0 <= i < m ==> tok[i] == ' '
    ensures ParseInt(tok).None?
  {
    ParseIntSucceeds(tok);
  }

  /**
   * The whole file, as the sequence of lines `getline` returns, and whether the last of
   * them ended with a line break. When the quantifier section runs out of lines, the
   * `getline` that fails leaves in `s` whatever the previous call read: nothing if that
   * line ended with a line break, the last line itself if the file ends without one.
   */
  function ParseDocument(lines: seq<string>, newlineAtEnd: bool): Result<Document, ParseError>
  {
    if |lines| == 0 || !StartsWith(lines[0], Header) then Err(BadHeader)
    else QuantifierSection(lines, 1, [], newlineAtEnd)
  }

  /** How the first loop of `parseQCIRFile` treats one line. */
  datatype HeadLine =
    | Skipped                                  // a comment line, see IsCommentLine
    | BlockLine(read: Result<Block, ParseError>) // a quantifier line and how it reads
    | OutputLine                               // the "output" line that ends the loop
    | Unexpected                               // anything else: ExpectedOutput

  function ClassifyHeadLine(s: string): HeadLine
  {
    if IsCommentLine(s) then Skipped
    else if IsQuantifierLine(s) then BlockLine(ParseQuantifierLine(s))
    else if StartsWith(s, "output") then OutputLine
    else Unexpected
  }

  /**
   * The first loop of `parseQCIRFile` from line `i` on, with the blocks read so far: the
   * blocks and the index of the line that passes the "output" check, or the first error.
   * That line is an "output" line that ends the loop or, in a file without a final line
   * break, a skipped last line that starts with "output" and is still held in `s`.
   */
  function HeadLoop(lines: seq<string>, i: nat, blocks: seq<Block>, classify: string -> HeadLine, newlineAtEnd: bool): (r: Result<(seq<Block>, nat), ParseError>)
    requires i <= |lines|
    ensures r.Ok? ==> r.value.1 < |lines|
    ensures r.Ok? ==>
      ((i <= r.value.1 && classify(lines[r.value.1]) == OutputLine) ||
       (r.value.1 == |lines| - 1 && !newlineAtEnd && StartsWith(lines[r.value.1], "output")))
    ensures r.Ok? ==> |r.value.0| >= |blocks| && r.value.0[..|blocks|] == blocks
    decreases |lines| - i
  {
    if i == |lines| then
      if !newlineAtEnd && 0 < i && StartsWith(lines[i - 1], "output") then Ok((blocks, i - 1))
      else Err(ExpectedOutput)
    else
      match classify(lines[i])
      case Skipped => HeadLoop(lines, i + 1, blocks, classify, newlineAtEnd)
      case Unexpected => Err(ExpectedOutput)
      case OutputLine => Ok((blocks, i))
      case BlockLine(read) =>
        var b :- read;
        var r := HeadLoop(lines, i + 1, blocks + [b], classify, newlineAtEnd);
        assert r.Ok? ==> r.value.0[..|blocks|] == (blocks + [b])[..|blocks|];
        r
  }

  /** The rest of the file from line `i` on: the first loop, then the second one after "output". */
  function QuantifierSection(lines: seq<string>, i: nat, blocks: seq<Block>, newlineAtEnd: bool): Result<Document, ParseError>
    requires i <= |lines|
  {
    var (bs, o) :- HeadLoop(lines, i, blocks, ClassifyHeadLine, newlineAtEnd);
    var gates :- GateSection(lines, o + 1);
    Ok(Document(bs, gates))
  }

  /**
   * A loop that reads every line from `i` on with `parse` and stops at the first error,
   * which becomes the loop's error.
   */
  function ReadLines<T>(lines: seq<string>, i: nat, parse: string -> Result<T, ParseError>): Result<seq<T>, ParseError>
    requires i <= |lines|
    decreases |lines| - i
  {
    if i == |lines| then Ok([])
    else
      var g :- parse(lines[i]);
      var rest :- ReadLines(lines, i + 1, parse);
      Ok([g] + rest)
  }

  /**
   * The loop succeeds with one value per line, each what `parse` reads from its line,
   * or fails with the error `parse` reports on one of the lines.
   */
  lemma {:induction false} ReadLinesMeaning<T>(lines: seq<string>, i: nat, parse: string -> Result<T, ParseError>)
    requires i <= |lines|
    ensures ReadLines(lines, i, parse).Ok? ==> |ReadLines(lines, i, parse).value| == |lines| - i
    ensures ReadLines(lines, i, parse).Ok? ==>
      forall k :: i <= k < |lines| ==> parse(lines[k]) == Ok(ReadLines(lines, i, parse).value[k - i])
    ensures ReadLines(lines, i, parse).Err? ==>
      exists k :: i <= k < |lines| && parse(lines[k]) == Err(ReadLines(lines, i, parse).error)
    decreases |lines| - i
  {
    if i < |lines| && parse(lines[i]).Ok? {
      ReadLinesMeaning(lines, i + 1, parse);
    }
  }

  /** Lines that each read as the matching value make the loop read as those values. */
  lemma {:induction false} ReadLinesReads<T>(lines: seq<string>, i: nat, parse: string -> Result<T, ParseError>, out: seq<T>)
    requires i <= |lines| && |lines| - i == |out|
    requires forall k :: i <= k < |lines| ==> parse(lines[k]) == Ok(out[k - i])
    ensures ReadLines(lines, i, parse) == Ok(out)
    decreases |out|
  {
    if out != [] {
      ReadLinesReads(lines, i + 1, parse, out[1..]);
      assert [out[0]] + out[1..] == out;
    }
  }

  /** The loop only looks at the lines from `i` on: dropping the first `j` lines shifts it by `j`. */
  lemma {:induction false} ReadLinesShift<T>(lines: seq<string>, i: nat, j: nat, parse: string -> Result<T, ParseError>)
    requires j <= i <= |lines|
    ensures ReadLines(lines, i, parse) == ReadLines(lines[j..], i - j, parse)
    decreases |lines| - i
  {
    if i < |lines| {
      assert lines[j..][i - j] == lines[i];
      ReadLinesShift(lines, i + 1, j, parse);
    }
  }

  /** The second loop of `parseQCIRFile`: every remaining line is a gate line, comments included. */
  function GateSection(lines: seq<string>, i: nat): Result<seq<GateLine>, ParseError>
    requires i <= |lines|
  {
    ReadLines(lines, i, ParseGateLine)
  }

  /**
   * Lines `i` to `o - 1` that are block lines reading as the matching blocks, then the
   * "output" line at `o`, make the first loop return all the blocks and `o`.
   */
  lemma {:induction false} HeadLoopReads(lines: seq<string>, i: nat, o: nat, blocks: seq<Block>, classify: string -> HeadLine, newlineAtEnd: bool)
    requires 1 <= i <= o < |lines| && o - 1 == |blocks|
    requires forall k :: i <= k < o ==> classify(lines[k]) == BlockLine(Ok(blocks[k - 1]))
    requires classify(lines[o]) == OutputLine
    ensures HeadLoop(lines, i, blocks[..i - 1], classify, newlineAtEnd) == Ok((blocks, o))
    decreases o - i
  {
    if i == o {
      assert blocks[..i - 1] == blocks;
    } else {
      HeadLoopReads(lines, i + 1, o, blocks, classify, newlineAtEnd);
      assert blocks[..i - 1] + [blocks[i - 1]] == blocks[..i];
    }
  }
}
