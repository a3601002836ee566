# qcirsym in Dafny

qcirsym reads a quantified Boolean circuit in the QCIR-G14 format and finds its symmetries.

**Reading the file.** It turns the circuit into a coloured, undirected graph:
- Every quantified variable `v` becomes two literal nodes, `v` and `-v`, which are joined to each other.
- Every `and`/`or` gate line becomes one gate node.
- A negated literal that names a gate (not a variable) gets a NOT node of its own.
- Each node is connected to what it uses and to what uses it. Edges from a literal back to its gates are queued while the file is read and added at the end: the back-edge pass.

**Colouring and search.** The graph is handed to the saucy library in compressed form: an offset array `adj` and an edge array `edg`.
- The literals of quantifier block `c` get color `c`.
- And, or and NOT nodes get three further colors.

For every automorphism saucy reports, a callback:
1. sorts the support;
2. splits the permutation into cycles, starting each cycle at the smallest support point not yet seen;
3. stores those cycles as one orbit group.

**Output.** At the end, each group is printed as one line of cycles. A cycle lists the file ids of its literal nodes only; gate nodes are dropped.

The model follows the source file by file:

| file | what it holds |
|---|---|
| `text.dfy` | `std::string::find`, `std::stoi`, and the way `std::ostream` prints an `int` |
| `qcir_syntax.dfy` | `parseQCIRFile` and `parseInt` as a pure reader. It turns the lines of the file into a `Document` (quantifier blocks and gate lines) or the first error. |
| `qcir_writer.dfy` | a writer for `Document`s, as the partner of the reader: everything written reads back as itself |
| `nodes.dfy`, `steps.dfy` | the node list, `fileToGraphMap`, the color classes and `adjToAdd` as values; one step function per update the source makes |
| `circuit.dfy` | `QCIR_Info` as the class `QcirInfo`. Its methods (`storeVariable`, `readGateVar`, the back-edge pass, …) change its fields in place; each is proved equal to the matching step function. |
| `replay.dfy`, `built.dfy` | what stays true over the whole run: the bookkeeping invariants, symmetric adjacency, the layout of the literal nodes, and the fact that the order of the back-edge pass does not matter |
| `encoding.dfy`, `graph.dfy` | the `adj`/`edg`/`colors` encoding in `main` |
| `orbits.dfy` | `integer_compare` and `onAutomorphismStoreOrbits` over the global `orbits` and `marks` |
| `orbit_output.dfy` | the filtering and printing loop at the end of `main` |

## Model

| member | source | states |
|---|---|---|
| Text.Find | src/qcirsym.cpp:139-140 | `find` returns the first position at or after `from` holding the character, and `npos` exactly when there is none |
| Text.FindNone | src/qcirsym.cpp:158 | `find` returns `npos` exactly when the character does not occur in the rest of the line |
| Text.JoinPieces | src/qcirsym.cpp:158-163 | cutting a line at every `,` and joining the parts with `,` gives the line back |
| Text.PiecesOfJoin | src/qcirsym.cpp:158-163 | parts free of `,`, joined by `,`, are cut back into the same parts |
| Text.LastPieceIsSuffix | src/qcirsym.cpp:158-165 | what is left after the comma loop is a suffix of the line |
| Text.FirstSeparator | src/qcirsym.cpp:194 | `find` stops at the first occurrence of a separator |
| Text.SkipSpaces | src/qcirsym.cpp:115 | `stoi` skips exactly the leading white space |
| Text.DigitEnd | src/qcirsym.cpp:115 | `stoi` reads the maximal run of digits |
| Text.ParseIntSucceeds | src/qcirsym.cpp:112-120 | `stoi` succeeds exactly when a digit follows the leading white space and the optional sign |
| Text.NatToString | src/qcirsym.cpp:385 | a printed natural number is a non-empty string of digits |
| Text.IntToString | src/qcirsym.cpp:385 | a printed `int` is its digits, preceded by `-` when negative |
| Text.DigitsValueOfNatToString | src/qcirsym.cpp:385 | printed digits have the value printed |
| Text.ParseIntOfIntToString | src/qcirsym.cpp:115 | `stoi` reads a printed integer back as itself, whatever non-digit follows it |
| Text.ParseIntOfNatToString | src/qcirsym.cpp:115 | `stoi` reads printed digits back as their value |
| Text.ParseIntOfNegative | src/qcirsym.cpp:115 | `stoi` reads `-` followed by digits as the negated value |
| Text.ParseIntShape | src/qcirsym.cpp:115 | `stoi` on a token with an optional sign and a run of digits gives the signed value of the digits |
| Text.DigitEndOver | src/qcirsym.cpp:115 | the run of digits ends where the written digits end |
| Text.JoinFree | src/qcirsym.cpp:158-163 | a character other than the separator occurs in joined parts only if it occurs in a part |
| Text.Pieces | src/qcirsym.cpp:158-163 | the parts the comma loop cuts off, none of which holds the separator; `Text.JoinPieces` and `Text.PiecesOfJoin` relate them to the line |
| Text.LastPiece | src/qcirsym.cpp:158-165 | the text after the last separator, which holds none and is no longer than the line |
| Text.ParseInt | src/qcirsym.cpp:115 | `stoi` on a substring; its meaning is stated by `Text.ParseIntSucceeds`, `Text.ParseIntShape` and `Text.ParseIntOfIntToString` |
| QcirSyntax.CommentLineMeaning | src/qcirsym.cpp:139-141 | the first loop skips a line exactly when the line has no `)`, or has a `#` before its first `)` |
| QcirSyntax.ReadId | src/qcirsym.cpp:112-120 | `parseInt` succeeds exactly when `stoi` finds digits and the value fits in 32 bits. Otherwise it reports `NotAnInteger` (`invalid_argument`) or `IdOutOfRange` (`out_of_range`). |
| QcirSyntax.ReadAll | src/qcirsym.cpp:158-163 | the comma loop reads every token in order; it fails exactly when some token fails, and only with a `parseInt` error |
| QcirSyntax.LastPieceStart | src/qcirsym.cpp:158-162 | after the comma loop, `from` is just past the last `,`, and the rest of the line is the last piece |
| QcirSyntax.QuantifierLineMeaning | src/qcirsym.cpp:143-172 | a quantifier line fails with `ExpectedOpenParen` exactly when its seventh character is not `(`. It fails with `MissingCloseParen` only when no `)` follows the last comma, and always then once the tokens read. When it succeeds it holds one id per comma plus one, each read by `parseInt`, and its quantifier is the keyword. |
| QcirSyntax.QuantifierLineAccepted | src/qcirsym.cpp:151-172 | once the ids before the commas and the last id read, the line reads as the block of all of them |
| QcirSyntax.RemoveSpaces | src/qcirsym.cpp:204 | `remove_if(isspace)` keeps exactly the characters that are not white space, and never lengthens the text |
| QcirSyntax.GateLineMeaning | src/qcirsym.cpp:194-217 | a gate line fails with `MissingEquals` exactly when it has no `=`, and with `UnsupportedGate` only when the keyword between `=` and `(` is neither `and` nor `or`. When it succeeds, its id is what `stoi` reads before the first `=` and its kind is its keyword. |
| QcirSyntax.GateAtMeaning | src/qcirsym.cpp:194-213 | the same facts, given the position of the first `=` |
| QcirSyntax.GateAtReads | src/qcirsym.cpp:200-217 | the part after the first `=` never fails for want of `=`, and it fixes the id and the keyword |
| QcirSyntax.GateLineAccepted | src/qcirsym.cpp:194-240 | a line whose id, keyword and literals read is accepted as exactly that gate |
| QcirSyntax.GateLiteralsAccepted | src/qcirsym.cpp:220-240 | with a non-blank parenthesised part, the literals are the ids before the commas and then the id after the last comma |
| QcirSyntax.GateLiteralsEmpty | src/qcirsym.cpp:233-240 | with a blank parenthesised part and no comma, the gate has no literals |
| QcirSyntax.ReadGateLiterals | src/qcirsym.cpp:220-240 | reading the literals fails only with a `parseInt` error |
| QcirSyntax.LiteralsStart | src/qcirsym.cpp:220 | the literals are read from a position inside the line |
| QcirSyntax.BlankParensNoLiterals | src/qcirsym.cpp:233-240 | a gate with only spaces between its parentheses has no literals, or fails on a token without digits |
| QcirSyntax.SpacesThenParen | src/qcirsym.cpp:227 | a token made of spaces and then `)` is not a number |
| QcirSyntax.SpacesThenParenPieces | src/qcirsym.cpp:226-231 | the comma loop over text starting with spaces and `)` reads nothing, or fails with `NotAnInteger` |
| QcirSyntax.HeadLoop | src/qcirsym.cpp:137-185 | the first loop, when it succeeds, keeps the blocks read so far as a prefix and stops on an `output` line. In a file without a final line break it can also stop after the last line, when that line was skipped but starts with `output`, because `getline` leaves it in `s` |
| QcirSyntax.HeadLoopReads | src/qcirsym.cpp:137-185 | block lines up to an `output` line make the first loop return all their blocks and the index of that line |
| QcirSyntax.ReadLinesMeaning | src/qcirsym.cpp:191-241 | the second loop, when it succeeds, reads one gate per remaining line, each as that line reads alone. When it fails, its error is the error of some remaining line. |
| QcirSyntax.ReadLinesReads | src/qcirsym.cpp:191-241 | remaining lines that each read as a gate make the second loop read all of those gates |
| QcirSyntax.ReadLinesShift | src/qcirsym.cpp:191-241 | the second loop looks only at the lines from its start on |
| QcirSyntax.IsCommentLine | src/qcirsym.cpp:139-141 | the comment test of the first loop; its meaning is stated by `QcirSyntax.CommentLineMeaning` |
| QcirSyntax.ReadCommaTokens | src/qcirsym.cpp:158-163 | the comma loop: every token before a `,` is read with `parseInt`, and the loop stops just past the last `,`. Its meaning is stated by `QcirSyntax.ReadAll` and `QcirSyntax.LastPieceStart` |
| QcirSyntax.ParseQuantifierLine | src/qcirsym.cpp:143-172 | reads a `forall(...)`/`exists(...)` line; its meaning is stated by `QcirSyntax.QuantifierLineMeaning` and `QcirSyntax.QuantifierLineAccepted`, and `QcirWriter.QuantifierLineRoundTrip` reads written blocks back |
| QcirSyntax.GateKeyword | src/qcirsym.cpp:202-204 | the text from after `=` up to the first `(`, without white space, or the rest of the line when the length wraps. `QcirSyntax.GateAtReads` and `QcirWriter.KeywordRead` state what it reads |
| QcirSyntax.ParenInterior | src/qcirsym.cpp:234-236 | the text between the first `(` and the first `)` of the line, with the wrap-arounds of `npos`. `QcirWriter.InteriorRead` states what it gives on a written gate line |
| QcirSyntax.HasNonBlank | src/qcirsym.cpp:236 | the test `find_first_not_of(' ') != npos`, which `QcirSyntax.GateLiteralsAccepted` and `QcirSyntax.GateLiteralsEmpty` split on |
| QcirSyntax.ReadLastLiteral | src/qcirsym.cpp:233-240 | the literal after the last comma is read only when the parenthesised part is not blank. `QcirSyntax.LastLiteralRead` states the outcome |
| QcirSyntax.LastLiteralRead | src/qcirsym.cpp:233-240 | with a non-blank parenthesised part, the id after the last comma is appended to the literals read before it |
| QcirSyntax.ParseGateAt | src/qcirsym.cpp:200-240 | reads a gate line given its first `=`; its meaning is stated by `QcirSyntax.GateAtMeaning` and `QcirSyntax.GateAtReads` |
| QcirSyntax.ParseGateLine | src/qcirsym.cpp:194-240 | reads a gate line; its meaning is stated by `QcirSyntax.GateLineMeaning` and `QcirSyntax.GateLineAccepted`, and `QcirWriter.GateLineRoundTrip` reads written gates back |
| QcirSyntax.ClassifyHeadLine | src/qcirsym.cpp:139-144 | sorts a line of the quantifier section into comment, `output` line or block line. `QcirWriter.BlockLinesRead` and `QcirWriter.OutputLineRead` state how written lines are sorted |
| QcirSyntax.ReadLines | src/qcirsym.cpp:191-241 | the second loop reads every remaining line as a gate, and stops at the first error. Its meaning is stated by `QcirSyntax.ReadLinesMeaning` and `QcirSyntax.ReadLinesReads` |
| QcirSyntax.GateSection | src/qcirsym.cpp:191-241 | the gate section runs from the line after the `output` line to the end of the file. `QcirWriter.DocumentGatesRead` states what it reads |
| QcirSyntax.QuantifierSection | src/qcirsym.cpp:137-241 | the first loop, then the second loop from the line after the one the first loop stopped on. `QcirWriter.DocumentHeadRead` and `QcirWriter.SkippedOutputAtEnd` state what it reads |
| QcirSyntax.ParseDocument | src/qcirsym.cpp:123-241 | reads the header and then both sections of a file. `QcirWriter.DocumentRoundTrip` states that written files read back, and `QcirWriter.SkippedOutputAtEnd` covers a file ending without a line break |
| QcirWriter.ReadIdOfIntToString | src/qcirsym.cpp:112-120 | `parseInt` reads a printed 32-bit id back as itself |
| QcirWriter.ReadAllTokens | src/qcirsym.cpp:158-163 | printed 32-bit ids read back, in order, as the same ids |
| QcirWriter.IntToStringAlphabet | src/qcirsym.cpp:158-163 | a printed id holds only digits and `-` |
| QcirWriter.TokensAlphabet | src/qcirsym.cpp:158-163 | every printed id holds only digits and `-` |
| QcirWriter.JoinCommasAlphabet | src/qcirsym.cpp:139-141 | a written id list holds no parenthesis, `#`, `=` or space, and is not empty when there are ids |
| QcirWriter.ReadJoined | src/qcirsym.cpp:158-163 | the comma loop over a written id list reads every id but the last, and stops where the last one starts |
| QcirWriter.QuantifierLineRoundTrip | src/qcirsym.cpp:143-172 | a written quantifier line reads back as the same block |
| QcirWriter.QuantifierIdsRead | src/qcirsym.cpp:151-172 | ids written after `(` and closed by `)` all read back, in order |
| QcirWriter.QuantifierIdsSplit | src/qcirsym.cpp:158-171 | in a written quantifier line, the comma loop stops at the last id, and that id runs up to the `)` |
| QcirWriter.LastToken | src/qcirsym.cpp:165-171 | the last id of a written quantifier line is found before the `)` and reads back |
| QcirWriter.BlockLayout | src/qcirsym.cpp:143-151 | a written quantifier line starts with its keyword and `(`, then holds its ids and `)` |
| QcirWriter.GateLayout | src/qcirsym.cpp:194-220 | in a written gate line, the first `=` follows the id, the first `(` follows the keyword, and the first `)` ends the line |
| QcirWriter.KeywordRead | src/qcirsym.cpp:202-204 | the keyword between `=` and `(` reads back |
| QcirWriter.KeywordWithoutSpaces | src/qcirsym.cpp:204 | removing white space from ` and` / ` or` leaves the keyword |
| QcirWriter.NoSpacesKept | src/qcirsym.cpp:204 | removing white space from text without any leaves it as it is |
| QcirWriter.GateLineRoundTrip | src/qcirsym.cpp:194-240 | a written gate line reads back as the same gate |
| QcirWriter.GateHeadRoundTrip | src/qcirsym.cpp:194-213 | the id and the keyword of a written gate line read back |
| QcirWriter.GateLiteralsRoundTrip | src/qcirsym.cpp:220-240 | the literals of a written gate line read back, also when there are none |
| QcirWriter.InteriorRead | src/qcirsym.cpp:234-236 | when the first `)` ends the line, the parenthesised part is what the parentheses enclose |
| QcirWriter.LiteralsRead | src/qcirsym.cpp:220-240 | literals written after the first `(` read back |
| QcirWriter.NoLiteralsRead | src/qcirsym.cpp:233-240 | `and()` and `or()` have no literals |
| QcirWriter.ClosedLineNotComment | src/qcirsym.cpp:139-141 | a line that ends with `)` and holds no `#` is not skipped |
| QcirWriter.BlockLineNotComment | src/qcirsym.cpp:139-141 | a written quantifier line is not skipped |
| QcirWriter.OutputLineRead | src/qcirsym.cpp:182 | the written `output` line is neither skipped nor a quantifier line, and it passes the `output` check |
| QcirWriter.BlockLinesRead | src/qcirsym.cpp:137-179 | the first loop reads every written quantifier line as its block |
| QcirWriter.GateLinesRead | src/qcirsym.cpp:191-241 | every written gate line reads back as its gate |
| QcirWriter.HeadLoopOfFirstRun | src/qcirsym.cpp:137-185 | the first loop reads the run of block lines after the header and stops at the line after them |
| QcirWriter.ReadLinesOfSecondRun | src/qcirsym.cpp:191-241 | the second loop reads the run of gate lines after the `output` line |
| QcirWriter.DocumentEnds | src/qcirsym.cpp:129-131 | a written file has one line per block and per gate, plus the header and the `output` line, and it starts with the header |
| QcirWriter.DocumentHeadRead | src/qcirsym.cpp:137-185 | the first loop reads all blocks of a written file and stops at its `output` line |
| QcirWriter.DocumentGatesRead | src/qcirsym.cpp:191-241 | the second loop reads all gates of a written file |
| QcirWriter.DocumentRoundTrip | src/qcirsym.cpp:123-253 | `parseQCIRFile` reads a written file back as the same blocks and gates, with or without a final line break |
| QcirWriter.SplitQuantifierLineRead | src/qcirsym.cpp:151-172 | once the comma loop reads every id but the last and the last id runs up to the `)`, the line reads as all the ids |
| QcirWriter.OutputSkipped | src/qcirsym.cpp:139-141 | a line starting with `output` and holding no `)` is skipped as a comment by the first loop |
| QcirWriter.SkippedOutputAtEnd | src/qcirsym.cpp:137-191 | a file whose last line starts with `output` but has no `)` is accepted when that line has no final line break, because `getline` leaves it in `s`. With a final line break it is rejected with `ExpectedOutput` |
| Nodes.AddEdgeKeepsNodes | src/qcirsym.cpp:102-106 | adding an edge changes no node's id or type |
| Nodes.AppendNode | src/qcirsym.cpp:75-76 | appending a node appends its id and its type |
| Nodes.FlattenPush | src/qcirsym.cpp:79 | adding a variable to the last color class adds it after all variables so far |
| Nodes.FlattenOpen | src/qcirsym.cpp:155 | opening an empty color class adds no variable |
| Nodes.ListedAppend | src/qcirsym.cpp:75-76 | a new node adds exactly its own edges to the listing |
| Nodes.ListedAddEdge | src/qcirsym.cpp:102-106 | `adj.push_back` adds exactly one pair to the listing |
| Nodes.ListedQueue | src/qcirsym.cpp:100-107 | queueing a back-edge adds exactly one pair to the listing |
| Nodes.SymmetricGrows | src/qcirsym.cpp:66-109 | adding a symmetric set of pairs to a symmetric listing keeps it symmetric |
| Nodes.StoreKeepsConsistent | src/qcirsym.cpp:66-84 | `storeVariable` keeps the bookkeeping facts: `v` and `-v` map to the two new consecutive literal nodes, and the color class gains `v` |
| Nodes.GateKeepsConsistent | src/qcirsym.cpp:205-213 | a new and/or node keeps the bookkeeping facts, with the gate id mapped to it |
| Nodes.NotNodeKeepsConsistent | src/qcirsym.cpp:92-101 | a NOT node for an unmapped negative id keeps the bookkeeping facts |
| Nodes.AppendKeepsMap | src/qcirsym.cpp:97-99 | mapping an id to the node appended for it keeps every mapped id leading to a node for that id |
| Nodes.AppendKeepsLayout | src/qcirsym.cpp:205-213 | nodes appended after the literals leave the literal layout intact |
| Nodes.EdgeKeepsConsistent | src/qcirsym.cpp:102-106 | adding an edge keeps the bookkeeping facts |
| Nodes.QueueKeepsConsistent | src/qcirsym.cpp:100-107 | queueing a back-edge keeps the bookkeeping facts |
| Nodes.StoreKeepsSymmetry | src/qcirsym.cpp:71-76 | the literals `v` and `-v` list each other |
| Nodes.LiteralEdgeKeepsSymmetry | src/qcirsym.cpp:105-108 | the gate lists the literal, and the gate is queued for the literal |
| Nodes.NotEdgesKeepSymmetry | src/qcirsym.cpp:102-103 | the NOT node and the gate list each other |
| Nodes.NotNodeKeepsSymmetry | src/qcirsym.cpp:96-101 | a new NOT node lists `-varId`, and its back-edge is queued |
| Nodes.BackEdgesApplied | src/qcirsym.cpp:244-250 | the back-edge pass keeps the number of nodes |
| Nodes.BackEdgesKeepNodes | src/qcirsym.cpp:244-250 | the back-edge pass changes no node's id or type |
| Nodes.BackEdgesAt | src/qcirsym.cpp:244-250 | after the pass, a node's adjacency is what it was, followed by the queue of its own id when that id maps to it |
| Nodes.BackEdgesListing | src/qcirsym.cpp:244-250 | the pass lists exactly the pairs that were present or queued before it |
| Nodes.BackEdgesOrderFree | src/qcirsym.cpp:244-250 | any order in which `unordered_map` hands out the keys gives the same nodes |
| Nodes.Lookup | src/qcirsym.cpp:245 | `fileToGraphMap[id]`, which gives 0 for an id that is not in the map. `Encoding.OwnIndex` states it on ids that are mapped |
| Nodes.AddEdge | src/qcirsym.cpp:102-106 | `gates[i].adj.push_back(id)`; `Nodes.AddEdgeKeepsNodes` and `Nodes.ListedAddEdge` state what it changes |
| Nodes.Queue | src/qcirsym.cpp:100-107 | `adjToAdd[key].push_back(id)`; `Nodes.ListedQueue` and `Nodes.QueueKeepsConsistent` state what it changes |
| Steps.Opened | src/qcirsym.cpp:155 | a new color class is empty |
| Steps.Stored | src/qcirsym.cpp:66-84 | `storeVariable` adds `v` to the variables of the classes and keeps the literal nodes first |
| Steps.GateAdded | src/qcirsym.cpp:205-213 | a gate line appends one node for its id, and keeps every mapped id leading to a node |
| Steps.LiteralRead | src/qcirsym.cpp:87-109 | `readGateVar` keeps every mapped id leading to a node, only grows the nodes and the map, and leaves variables and colors alone |
| Steps.BackEdgesDone | src/qcirsym.cpp:244-250 | the back-edge pass keeps the nodes' count, the map, the variables and the colors |
| Steps.StoredAll | src/qcirsym.cpp:158-172 | storing a block's variables keeps the classes' count, the colors and the queue, and keeps the literal nodes first |
| Steps.Declared | src/qcirsym.cpp:137-179 | the quantifier section makes one color class per block, counts one color per block, queues nothing, and leaves only literal nodes |
| Steps.LiteralsRead | src/qcirsym.cpp:226-240 | reading a gate's literals keeps every mapped id leading to a node and only grows the nodes and the map |
| Steps.GatesRead | src/qcirsym.cpp:191-241 | the gate section keeps every mapped id leading to a node and only grows the nodes and the map |
| Steps.Collected | src/qcirsym.cpp:135-241 | everything `parseQCIRFile` builds before the back-edge pass. `Built.CollectedClasses`, `Built.DeclaredIdsMapped` and `Built.CollectedKeysMapped` state its shape |
| Replay.EmptyValid | src/qcirsym.cpp:135 | the empty `QCIR_Info` satisfies the bookkeeping facts |
| Replay.OpenedKeepsValid | src/qcirsym.cpp:155 | a new color class keeps the facts |
| Replay.StoredKeepsValid | src/qcirsym.cpp:66-84 | `storeVariable` keeps the facts |
| Replay.StoredAllKeepsValid | src/qcirsym.cpp:158-172 | a block's variables keep the facts |
| Replay.DeclaredValid | src/qcirsym.cpp:137-179 | the quantifier section leaves the facts true |
| Replay.GateAddedKeepsValid | src/qcirsym.cpp:205-213 | a gate node keeps the facts |
| Replay.ValidInRange | src/qcirsym.cpp:102 | under the facts, every mapped id leads to an existing node |
| Replay.NewNotKeepsValid | src/qcirsym.cpp:91-103 | `readGateVar` that creates a NOT node keeps the facts |
| Replay.LiteralReadKeepsValid | src/qcirsym.cpp:87-109 | `readGateVar` keeps the facts |
| Replay.LiteralsReadKeepsValid | src/qcirsym.cpp:226-240 | a gate's literals keep the facts |
| Replay.GatesReadKeepsValid | src/qcirsym.cpp:191-241 | the gate section keeps the facts |
| Replay.CollectedValid | src/qcirsym.cpp:123-241 | the facts hold before the back-edge pass |
| Replay.CollectedTargeted | src/qcirsym.cpp:244-246 | every queued key leads to a node before the back-edge pass |
| Replay.BackEdgesKeepValid | src/qcirsym.cpp:244-250 | the back-edge pass keeps the facts and leaves nothing queued |
| Replay.EmptyBalanced | src/qcirsym.cpp:135 | the empty state lists nothing one way only |
| Replay.StoredAllKeepsBalanced | src/qcirsym.cpp:66-84 | storing variables keeps the listing symmetric |
| Replay.DeclaredBalanced | src/qcirsym.cpp:137-179 | after the quantifier section the listing is symmetric |
| Replay.GateAddedKeepsBalanced | src/qcirsym.cpp:205-213 | a new gate node keeps the listing symmetric |
| Replay.LiteralReadKeepsBalanced | src/qcirsym.cpp:87-109 | `readGateVar` keeps the listing, present or queued, symmetric |
| Replay.LiteralReadKeepsNode | src/qcirsym.cpp:87-109 | `readGateVar` changes no existing node's id or type |
| Replay.LiteralsReadKeepsNode | src/qcirsym.cpp:226-240 | a gate's literals change no existing node's id or type |
| Replay.LiteralsReadKeepsBalanced | src/qcirsym.cpp:226-240 | a gate's literals keep the listing symmetric |
| Replay.GatesReadKeepsBalanced | src/qcirsym.cpp:191-241 | the gate section keeps the listing symmetric |
| Replay.CollectedBalanced | src/qcirsym.cpp:123-241 | before the back-edge pass, everything listed, present or queued, is listed the other way too |
| Built.StoredAllClasses | src/qcirsym.cpp:158-172 | storing a block's variables appends them, in order, to the last color class alone |
| Built.DeclaredAppendsClass | src/qcirsym.cpp:155-175 | each quantifier block adds one color class, holding its variables |
| Built.DeclaredClasses | src/qcirsym.cpp:137-179 | after the quantifier section, class `i` holds the variables of block `i`, in file order |
| Built.CollectedClasses | src/qcirsym.cpp:123-241 | `numColors` is the number of blocks, class `i` is block `i`, and `numVars` is twice the number of variables |
| Built.LiteralReadGrowth | src/qcirsym.cpp:91-101 | `readGateVar` appends a NOT node, with the id mapped to it, exactly when the id is negative, is not a variable literal and has no node yet; otherwise it adds no node and maps nothing |
| Built.LiteralReadOnce | src/qcirsym.cpp:95-101 | reading the same literal twice creates at most one node |
| Built.LiteralReadLinks | src/qcirsym.cpp:87-109 | after `readGateVar`, the gate lists the literal and the literal lists the gate, present or queued |
| Built.PartnerMapped | src/qcirsym.cpp:82-83 | when a literal node is mapped, so is its partner literal |
| Built.LiteralReadKeepsKnown | src/qcirsym.cpp:100-107 | a literal naming a declared id queues only keys that are mapped or declared |
| Built.LiteralsReadKeepsKnown | src/qcirsym.cpp:226-240 | the same for all of a gate's literals |
| Built.GatesReadKeepsKnown | src/qcirsym.cpp:191-241 | the same for the gate section |
| Built.StoredAllMaps | src/qcirsym.cpp:82-83 | storing variables maps each of them and unmaps nothing |
| Built.DeclaredMaps | src/qcirsym.cpp:137-179 | after the quantifier section every quantified variable is mapped |
| Built.GatesReadMaps | src/qcirsym.cpp:207-213 | the gate section maps the id of each of its lines |
| Built.DeclaredIdsMapped | src/qcirsym.cpp:123-241 | every declared id is mapped before the back-edge pass |
| Built.CollectedKeysMapped | src/qcirsym.cpp:244-246 | when every literal names a declared id, every queued key is mapped, so `operator[]` invents no node 0 |
| Built.BuiltValid | src/qcirsym.cpp:244-252 | the returned `QCIR_Info` satisfies the facts, with nothing left queued |
| Built.BuiltSymmetric | src/qcirsym.cpp:244-252 | when every literal names a declared id, the returned adjacency lists are symmetric at the level of file ids |
| Built.BuiltOrderFree | src/qcirsym.cpp:244-250 | when every literal names a declared id, the result does not depend on the order of the back-edge pass |
| Circuit.QcirInfo.constructor | src/qcirsym.cpp:135 | a new `QCIR_Info` is the empty state |
| Circuit.QcirInfo.NewColorClass | src/qcirsym.cpp:155 | the fields become `Opened` of the old fields |
| Circuit.QcirInfo.StoreVariable | src/qcirsym.cpp:66-84 | the fields become `Stored` of the old fields |
| Circuit.QcirInfo.AddGate | src/qcirsym.cpp:205-213 | the new node is at the old end of the node list, and the fields become `GateAdded` of the old fields |
| Circuit.QcirInfo.ReadGateVar | src/qcirsym.cpp:87-109 | the fields become `LiteralRead` of the old fields |
| Circuit.QcirInfo.DeclareBlock | src/qcirsym.cpp:150-175 | a quantifier line opens a class, stores its variables in order and counts one more color |
| Circuit.QcirInfo.ReadGate | src/qcirsym.cpp:200-240 | a gate line adds its node and then reads its literals in order |
| Circuit.QcirInfo.AppendEdges | src/qcirsym.cpp:246-249 | the inner loop appends the queued ids to one node and changes nothing else |
| Circuit.QcirInfo.ApplyBackEdges | src/qcirsym.cpp:244-250 | the pass visits every queued key exactly once, in some order, and the fields become `BackEdgesDone` for that order |
| Circuit.DeclareBlocks | src/qcirsym.cpp:137-179 | the quantifier section takes the empty state to `Declared(blocks)` |
| Circuit.ReadGates | src/qcirsym.cpp:191-241 | the gate section takes `Declared(blocks)` to `GatesRead` of it |
| Circuit.Build | src/qcirsym.cpp:135-252 | building from a document gives the back-edge pass over what the two sections collect, in an order visiting every queued key once |
| Circuit.ParseQcirFile | src/qcirsym.cpp:123-253 | given the lines of a file and whether it ends with a line break: a rejected file reports the reader's error, and an accepted one gives the built `QCIR_Info` of its document |
| Encoding.Targets | src/qcirsym.cpp:307-309 | each file id becomes its `fileToGraphMap` index, in order |
| Encoding.Neighbours | src/qcirsym.cpp:303-310 | node `i`'s slice of `edg` holds the indices of its adjacency list |
| Encoding.Offsets | src/qcirsym.cpp:305-352 | there is one offset per node plus a final one equal to the number of edges |
| Encoding.LayoutEncodes | src/qcirsym.cpp:303-310 | the node-by-node layout is a compressed form of the graph |
| Encoding.EncodeAdjacency | src/qcirsym.cpp:303-352 | the loop produces `adj` and `edg` encoding every node's adjacency |
| Encoding.OffsetsRise | src/qcirsym.cpp:305-306 | offsets never decrease |
| Encoding.OwnIndex | src/qcirsym.cpp:308 | with distinct ids, a node's own id maps to that node |
| Encoding.NeighbourBack | src/qcirsym.cpp:303-310 | if node `i` has neighbour `j`, then `j` is a node and has neighbour `i` |
| Encoding.Undirected | src/qcirsym.cpp:303-310 | the encoded graph is undirected and its edges stay within the nodes |
| Encoding.LiteralColors | src/qcirsym.cpp:318-324 | there are two literal colors per variable |
| Encoding.FlattenStep | src/qcirsym.cpp:318-319 | one more class adds its variables after those of the earlier classes |
| Encoding.FlattenPrefix | src/qcirsym.cpp:318-324 | the first classes hold no more variables than all of them |
| Encoding.LiteralColorsStep | src/qcirsym.cpp:318-324 | class `c` adds two entries of color `c` per variable |
| Encoding.EncodeColors | src/qcirsym.cpp:313-345 | `colors` has one entry per node: the literal colors first, then each gate's type color |
| Encoding.ColorLiterals | src/qcirsym.cpp:315-324 | the first loop writes the literal colors and stops at twice the number of variables |
| Encoding.FillClass | src/qcirsym.cpp:319-323 | the inner loop writes two entries of the class color per variable and touches nothing else |
| Encoding.ColorGates | src/qcirsym.cpp:327-345 | the second loop gives every remaining node its type color |
| Encoding.LiteralColorAt | src/qcirsym.cpp:318-324 | the `k`-th variable of class `c` has both its literal colors equal to `c` |
| Encoding.LiteralColorsBelow | src/qcirsym.cpp:318-324 | literal colors are class indices |
| Encoding.GateColorsApart | src/qcirsym.cpp:327-345 | gate colors lie at `numColors` and above, and they tell and, or and NOT apart |
| Encoding.GateColor | src/qcirsym.cpp:326-344 | and-gates take `numColors`, or-gates `numColors + 1` and not-gates `numColors + 2`. `Encoding.GateColorsApart` states that these never meet a variable color |
| Graph.EncodeGraph | src/qcirsym.cpp:303-345 | for a built `QCIR_Info`: `adj`/`edg` encode the graph, and each node's color is its block or its gate type |
| Graph.BuiltLayout | src/qcirsym.cpp:66-84 | in the finished graph the classes are the blocks' variables, and the literal nodes come first in pairs |
| Graph.LiteralNodesColored | src/qcirsym.cpp:318-324 | the two literal nodes of variable `k` of block `c` stand for `v` and `-v` and have color `c` |
| Graph.BuiltColorsApart | src/qcirsym.cpp:315-345 | literal colors are below `numColors`; gate colors are at `numColors` or above and equal exactly for equal gate types |
| Graph.BuiltUndirected | src/qcirsym.cpp:303-357 | when every literal names a declared id and node ids are distinct, the graph given to saucy is undirected and has no edge out of range |
| Orbits.IntegerCompare | src/qcirsym.cpp:59-63 | the result is negative, zero or positive exactly as `a` is below, equal to or above `b` |
| Orbits.SortSupport | src/qcirsym.cpp:262 | the support ends sorted and is a permutation of what it was |
| Orbits.Sink | src/qcirsym.cpp:262 | one insertion step extends the sorted prefix and keeps the elements |
| Orbits.SmallestFirst | src/qcirsym.cpp:267-278 | a support point below the start of cycle `p` lies on an earlier cycle |
| Orbits.DistinctBound | src/qcirsym.cpp:281-285 | a cycle of distinct node indices has at most `n` points, so the walk ends |
| Orbits.Predecessor | src/qcirsym.cpp:281-285 | every point of a cycle is the image of a point of that cycle |
| Orbits.ClosedBackwards | src/qcirsym.cpp:281-285 | a point mapped into a cycle lies on that cycle |
| Orbits.CyclesInSupport | src/qcirsym.cpp:256 | a cycle started in the support stays in the support |
| Orbits.DecompositionInSupport | src/qcirsym.cpp:267-287 | every point on a stored cycle lies in the support |
| Orbits.InCyclesAppend | src/qcirsym.cpp:276 | a point lies on the extended cycles exactly when it lies on the old ones or on the new one |
| Orbits.ImageOffCycles | src/qcirsym.cpp:281-285 | the image of an unmarked point is unmarked |
| Orbits.NextIsNew | src/qcirsym.cpp:281-285 | the walk reaches only new points until it closes the cycle |
| Orbits.AppendDisjoint | src/qcirsym.cpp:270-276 | a cycle of unmarked points keeps the cycles disjoint |
| Orbits.AppendStarts | src/qcirsym.cpp:267-278 | the new cycle starts at the current support point, and the starts keep ascending |
| Orbits.AppendCovered | src/qcirsym.cpp:267-278 | after the new cycle, the first `i + 1` support points lie on cycles |
| Orbits.AppendSmallest | src/qcirsym.cpp:267-278 | the new cycle starts at the smallest of its support points |
| Orbits.AddCycle | src/qcirsym.cpp:273-286 | one step of the outer loop extends the partial decomposition by the cycle of `support[i]` |
| Orbits.SkipMarked | src/qcirsym.cpp:270-271 | skipping a marked point keeps the partial decomposition |
| Orbits.PartialDone | src/qcirsym.cpp:267-287 | once every support point is visited, the cycles decompose the support |
| Orbits.Rearranged | src/qcirsym.cpp:262 | sorting the support keeps every moved point in it and every entry a node index |
| Orbits.OrbitStore.constructor | src/qcirsym.cpp:350 | `calloc` gives one clear mark per node, and there are no groups yet |
| Orbits.OrbitStore.FollowCycle | src/qcirsym.cpp:274-285 | the walk from an unmarked `k` returns the cycle of `k`; its points were unmarked, and now exactly they are marked too |
| Orbits.OrbitStore.ClearMarks | src/qcirsym.cpp:288-291 | clearing the support points clears every mark |
| Orbits.OrbitStore.CollectCycles | src/qcirsym.cpp:265-287 | the loop splits the permutation into disjoint cycles covering the support. Each cycle starts at its smallest support point, with ascending starts, and exactly the points on cycles are marked. |
| Orbits.OrbitStore.OnAutomorphismStoreOrbits | src/qcirsym.cpp:256-293 | the callback returns 1 and leaves the marks clear. It sorts the support, keeps the earlier groups, and appends one group that decomposes the support into cycles: every support point lies on exactly one cycle, and each cycle starts at the smallest support point not on an earlier one. |
| OrbitOutput.VarOrbitMembers | src/qcirsym.cpp:374-378 | an id is printed for a cycle exactly when some entry of the cycle is a literal node for that id |
| OrbitOutput.VarOrbitEmpty | src/qcirsym.cpp:380 | a cycle is skipped exactly when all its nodes are gate nodes |
| OrbitOutput.VarOrbitDeclared | src/qcirsym.cpp:375-376 | every printed id is a quantified variable or its negation |
| OrbitOutput.FilterCycle | src/qcirsym.cpp:371-378 | the filtering loop returns the ids of the cycle's literal nodes, in cycle order |
| OrbitOutput.RenderCycle | src/qcirsym.cpp:383-387 | the printing loop writes `(`, the ids separated by single spaces, then `)` |
| OrbitOutput.IntToStringPlain | src/qcirsym.cpp:385 | a printed id holds no space or line break |
| OrbitOutput.SpacedJoin | src/qcirsym.cpp:384-387 | each id but the last followed by a space, then the last one, is the ids joined by single spaces |
| OrbitOutput.JoinSnoc | src/qcirsym.cpp:384-387 | joining one more part appends a separator and that part |
| OrbitOutput.CycleTextReadsBack | src/qcirsym.cpp:383-387 | a printed cycle is parenthesised, and the words inside read back as its ids |
| OrbitOutput.TokensReadBack | src/qcirsym.cpp:384-387 | ids joined by spaces split back into their printed forms |
| OrbitOutput.WordsOfJoin | src/qcirsym.cpp:384-387 | parts free of a separator, joined and cut again, come back as they were |
| OrbitOutput.RenderGroup | src/qcirsym.cpp:369-390 | a group prints its non-empty cycles, followed by a line break exactly when it printed one |
| OrbitOutput.RenderOrbits | src/qcirsym.cpp:368-391 | the output is the groups' texts, group after group |
| OrbitOutput.CycleTextOneLine | src/qcirsym.cpp:383-387 | a printed cycle holds no line break |
| OrbitOutput.CyclesTextOneLine | src/qcirsym.cpp:370-388 | the cycles of a group print on one line |
| OrbitOutput.SilentGroup | src/qcirsym.cpp:389-390 | a group without a literal prints nothing, not even a line break |
| OrbitOutput.OutputLines | src/qcirsym.cpp:368-391 | the output is one line per group that holds a literal, each ended by a line break |
| OrbitOutput.PiecesAppendLine | src/qcirsym.cpp:389-390 | one more line ended by a line break adds exactly one line |
| OrbitOutput.FindPrefix | src/qcirsym.cpp:389-390 | appending text does not move the first line break |
| OrbitOutput.VarOrbit | src/qcirsym.cpp:371-378 | keeps the variables of a permutation and maps them to their file ids. `OrbitOutput.VarOrbitMembers`, `OrbitOutput.VarOrbitEmpty` and `OrbitOutput.VarOrbitDeclared` state its meaning |
| OrbitOutput.CycleText | src/qcirsym.cpp:382-386 | prints `(v1 v2 ... vk)`. The printing loop `OrbitOutput.RenderCycle` is proved to produce it, and `OrbitOutput.CycleTextReadsBack` reads the ids back from it |
| OrbitOutput.CyclesText | src/qcirsym.cpp:370-387 | the printed cycles of one group; `OrbitOutput.CyclesTextOneLine` states that they hold no line break |
| OrbitOutput.Found | src/qcirsym.cpp:369-381 | `foundOrbit`: some permutation of the group keeps a variable. `OrbitOutput.SilentGroup` states that a group without one prints nothing |
| OrbitOutput.GroupText | src/qcirsym.cpp:368-390 | the output for one group: its cycles and a line break, or nothing. The loop `OrbitOutput.RenderGroup` is proved to produce it, and `OrbitOutput.SilentGroup` states when it is empty |
| OrbitOutput.OrbitsText | src/qcirsym.cpp:368-391 | the whole output of the orbit loop. The loop `OrbitOutput.RenderOrbits` is proved to produce it, and `OrbitOutput.OutputLines` states that it has one line per group that keeps a variable |

## Left out

- File I/O is not modelled. Opening the file, `getline` and `printErrAndExit` are replaced: the model takes the file as a sequence of lines and whether its last line ends with a line break, and an error becomes a `ParseError` value. The line number in a message is not kept, and the argument check in `main` is not modelled.
- saucy is not part of this model. `saucy_alloc`, `saucy_search` and `saucy_free` are foreign calls. The automorphism they report reaches the model as the callback's `gamma` and `support`, and is assumed to be a permutation of the nodes whose support holds every point it moves.
- `calloc`/`free` of `marks` become the `OrbitStore` constructor over a fresh array.
- Printing to `std::cout` is the text the render methods return.
- Orbits.OrbitStore.OnAutomorphismStoreOrbits: the parameters `n` and `arg`, which the callback ignores, are dropped. `nsupp` is the length of `support`.
- Orbits.OrbitStore.OnAutomorphismStoreOrbits: the source grows the new group in place through the references `orbit` and `permutation`. The model builds the group and appends it whole. Aliasing of those references is not modelled.
- Orbits.SortSupport: `qsort` is modelled as an insertion sort with the same comparison. Only its result (sorted, same elements) is relied on, not its algorithm.
- QcirSyntax.ReadId: an id outside the 32-bit range is a `ParseError`. In the source, the `out_of_range` that `stoi` throws is not caught and ends the program. `int32_t` arithmetic is not otherwise modelled: `numVars`, node indices and colors are unbounded. ReadId accepts the id `-2147483648`, and Steps.Stored and Steps.LiteralRead then use `2147483648` as its partner id. In the source, `-fileVarId` and `-varId` overflow `int32_t` for this id, which is undefined behaviour.
- Circuit.QcirInfo.ApplyBackEdges: `info.fileToGraphMap[key]` with `operator[]` inserts key 0 for an unmapped key. The model reads node 0 without growing the map (Nodes.Lookup). Built.CollectedKeysMapped shows that this never happens when every literal names a declared id.
- Encoding.Targets: `fileToGraphMap[id]` is read through Nodes.Lookup in the same way.
- Built.BuiltSymmetric: node-level symmetry needs every literal to name a declared id. Built.BuiltSymmetric and Graph.BuiltUndirected assume this, and Graph.BuiltUndirected also assumes distinct node ids. Files that break either condition are accepted by the source but are not covered by these lemmas.
- The `unordered_map` iteration order of the back-edge pass is unspecified. The model takes it as an arbitrary order of the keys, and Built.BuiltOrderFree shows the result does not depend on it.
- The reader parses a whole `Document` first and builds the graph after. In the source the two are interleaved, but every error ends the run and building never fails, so the outcome is the same.

Where the code and its description differ, the model follows the code:
- The gate section does not skip comment lines; a `#` line there fails for want of `=`.
- The quantifier section skips any line with no `)`, even one without `#`.
- A six-character `forall` or `exists` line has no `)`, so the first loop skips it as a comment before `s[6]` is read. The `|s| <= 6` case of QcirSyntax.ParseQuantifierLine is therefore not reachable from QcirSyntax.ParseDocument.
- A gate line without `(` reads its literals from the start of the line (`npos + 1` wraps to 0). When `(` is missing or comes before `=`, the keyword runs to the end of the line.
- The `output` test after the first loop reads whatever the last `getline` left in `s`. A `getline` that fails at the end of the file leaves `s` unchanged. So a file whose last line starts with `output`, has no `)` and no final line break is accepted: that line was skipped as a comment, but it is still in `s`. With a final line break the same file fails with `ExpectedOutput`. The reader therefore takes whether the file ends with a line break as an input (QcirWriter.SkippedOutputAtEnd).
