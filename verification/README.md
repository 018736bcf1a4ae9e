# Algorithms of Libreboot's sbase, modelled and proved

Libreboot ships a copy of sbase, a set of small Unix tools, for its build
scripts.  Six of these tools hold an algorithm whose correctness is not visible
from any one function: `find` compiles its arguments, `sed` compiles and runs a
script, `ed` keeps its lines in a ring with an undo log, `tftp` transfers a file
over a lossy network, `tsort` orders a graph and reports loops, and `join`
merges two sorted files.  This project models them in Dafny and proves what they
are for: mostly statements about every input, every run, or every reachable
state.

Functions state what a step does; where the source works step by step on arrays,
vectors, counters or globals there is a method or a class that does the same and
is proved against those functions.  `dafny verify dfyconfig.toml` checks
everything.

## What is modelled

**find** (`FindSyntax`, `FindYard`, `FindParse`, `FindProgram`, `FindEval`, `FindWords`).
Arguments become tokens with implicit `-a`, shunting-yard turns them into reverse
Polish notation, and a second pass links the tree.  The first module has the
grammar

    or  := and { -o and }        and := not { [-a] not }
    not := ! not | ( or ) | primary

as concrete syntax trees with their yield and meaning.  The parser accepts
exactly the yields of grammar trees and builds exactly their expression.  That
the parser accepts nothing else is not obvious: the yard itself would turn
`a ! -o b` into something, and an operator at the wrong place is only noticed
because too few operands are left at the end; the proof counts operands and
operators across the three passes (`NetOfInfix`, `RunNet`, `NoRecovery`).  The
arrays have the sizes the source gives them and are never overrun.  Evaluation
gives the short-circuit meaning, with the same primaries run in the same order.
The source negates with `ret ^ 1`, which is right if and only if a primary
answers 0 or 1 (`NotNegatesExactly`).  `FindWords` says all this of the words
themselves, spelled out: which words are accepted, with which diagnostic the others
are refused, what tree is built from a sentence such as `-name a -o -name b`, when
`-print` is added, and what running it does (`ItemsIff`, `ItemsError`,
`AcceptsSentences`, `ParsesSentence`, `RunsSentence`).

**sed** (`SedMachine`, `SedNested`, `SedCompile`, `SedProgram`, `SedRanges`,
`SedOutput`, `SedFilter`, `SedSubst`, `SedPieces`, `SedEverywhere`).
`{ }` and labels become offsets in a flat program that is run by a program
counter; each command has an `in_match` bit that must also be kept up to date
when the command is skipped.  `SedNested` gives nested scripts a meaning of their
own and shows that the flat machine has it, for any number of cycles, and is back
at its first command after each of them while sed goes on (`FlatRun`, `BuiltRun`).
The machine keeps a record, which the program does not have, of the commands whose
range was consulted: without branches every addressed command is consulted exactly
once, in order, in each cycle completed, that is, between one return to the first
command and the next (`NestedOnTrack`).  With `b` and `t` the program counter stays
inside the program (`RunInside`), and the record stays right exactly for branches
that are *in step* (`BranchOnTrackIff`, `TidyIffInStep`, `RunOnTrack`).  The comment in the source promises that
ranges are never missed, with the example `1d;1,3p`; for `1b;1,3p` that is not
so (`BranchMissesRange`, about the programs built from these scripts): a branch without a label is given the last command of
the script as its destination, and the range of that command is passed over.
`SedRanges` says what addresses mean: on every run, of any script, a command with
two addresses is in range exactly on the lines that meet the first, or on which the
range has been opened by one before and not closed since (`RunSpans`); with line
numbers these are the lines from the first to the second (`LinesInRange`).
`SedOutput` and `SedFilter` follow this to what is printed: `-n m,np` prints exactly
the lines m to n, `m,nd` exactly the others, `m,nc` its text in their place, `-n /re/p`
exactly the lines that match (`PrintsLines`, `CutsLines`, `PrintsMatching`).
`SedSubst` is the loop of `s`: it ends, replaces exactly the chosen matches,
never counts an empty match right after another match, and with the replacement
`&` changes nothing.  `SedPieces` says what a replacement text stands for, piece by
piece, and `SedEverywhere` what `s` makes of a whole text for a character, for `c*`
and for `^`, with every occurrence flag.

**ed** (`EdRing`, `Ed`, `EdCommands`).  Lines are array elements linked in a ring by index; a
command logs the links it changes.  Undoing the log of any series of changes gives
back every link (`UndoneChanges`), and with it the lines, `curln` and `lastln`
(`Ed.Buffer.Undo`).  For the commands `a`, `i`, `c`, `d` and `j`, one by one or many
under a `g`: if one of them is refused, or `u` follows a line that changed anything,
the buffer is back at its state before that line, whatever was done
(`EdCommands.LineThenUndo`).  Text is read back from the append-only scratch file through a
one-block cache, whatever was appended since (`Ed.Buffer.ReadLine`).  `join`
concatenates the words of its lines, without their newlines (`JoinOfWords`).  Inserting
and deleting splice the sequence of lines exactly, with one exception that is
proved as it is in the source: `join` puts its line one place too early if and only
if it ends at the last line and does not start at the first (`Ed.Buffer.Join`;
`Ed.JoinLastTwo` is the smallest case).  Called by itself, `inject` before line 0
of a buffer that has lines would lose them all (`LosesLines` is the condition), but
no command reaches that: only `join` inserts before a line, after a deletion that
leaves line 0 current in an empty buffer only, which is asserted at that call.

**tftp** (`TftpPackets`, `Tftp`, `TftpLoops`, `TftpRecovery`).  The sender's and the receiver's
loop as step machines over sets of packets in flight, which may be delivered in
any order, any number of times, or never (RFC 1350, sections 2 and 6).  In every
reachable state what has been written is a prefix of the file, and it is the whole
file when the sender returns.  When the receiver returns it has the whole file
unless the file is longer than 65535 * 512 bytes and shorter than 65536 * 512, and
for every such length it can return without it (`ReceiverCompleteIff`): the last
block is then number 65536, which is 0 on the wire, is not the one expected and is
not written, but ends the transfer.  At 65535 * 512 bytes that last block is empty
and nothing is lost; from 65536 * 512 on the receiver never returns.  Both sides
can return if and only if the file has at most 65535 blocks (`BothReturnIff`).
`TftpRecovery` is about packets that are really lost: from every synchronised state, up
to four losses in a row of a block or its acknowledgement still lead to the next block
(`Recovers`), the fifth timeout ends the sender (`GivesUp`), and once the last
acknowledgement is lost the sender never returns, although the file is complete
(`LastAckLost`).

**tsort** (`StringOrder`, `Tsort`).  Sorted adjacency lists are built from pairs
of tokens, then vertices are visited in the order of their remaining in-degree.
For every input the sort ends and prints each vertex once; the exit status is 1 if
and only if the graph has a cycle; otherwise every edge goes forward in the
output; every loop that is reported is one.

**join** (`Join`, `JoinKeys`, `JoinBytes`, `JoinLoop`).  Two sorted files are merged a group at a time.
The pairs printed are those of two nested loops, in that order, for every
combination of options (`MergeIsInner`).  With `-a` or `-v` the lines without a
match are all printed if and only if neither file ends inside a matching group, or
is empty, while wanted lines of the other come later (`MergeIsOuterIff`, with
`EmptyFirstFile` and `EndsInGroup` as smallest cases); what should be printed is
given by `OuterIsUnmatched`.  These hold for any total order of keys.  The source
compares as many bytes as the longer key has, so what follows the shorter one in its
line takes part.  That is an order of the keys, and then the order of their bytes,
if and only if no key is the start of another that goes on with a character below
the separator (`OneByteIff`; `OrderOfKeysIff` for sets of separators of any length).
The same condition decides whether all files sorted by key are joined (`JoinsIff`).
Keys without control characters separated by blanks meet it (`BlanksSeparate`); the
keys `a` and `a1` with `-t :` do not, and lose their pair (`ColonMisjoins`).

## Model

| member | source | states |
|---|---|---|
| FindSyntax.LexIsInsertAnds | util/sbase/find.c:816-852 | Reading the arguments fails exactly when an argument cannot be read or parentheses are empty; otherwise it yields the tokens with an `-a` between every operand end and operand start that touch, and nowhere else |
| FindYard.RunNet | util/sbase/find.c:864-890 | Shunting-yard conserves operands minus operators, so the stack the linking pass will end with is fixed by the infix tokens |
| FindYard.NetOfInfix | util/sbase/find.c:816-852 | Implicit `-a` leaves at most one operand more than binary operators, in any argument list |
| FindYard.BuildDepth | util/sbase/find.c:912-922 | The linking pass ends with as many trees as it began with plus operands minus operators |
| FindYard.NoRecovery | util/sbase/find.c:864-924 | A reading that has fallen short of operands is never accepted, whatever follows |
| FindYard.SoundWanting | util/sbase/find.c:864-924 | From a state that wants an operand, whatever is accepted is completed by a grammar tree with exactly these tokens and this expression |
| FindYard.SoundHolding | util/sbase/find.c:864-924 | The same from a state that holds an operand |
| FindParse.Complete | util/sbase/find.c:864-890 | The tokens of any grammar tree are read without error, leaving the tree's operators owed in precedence order and nothing else changed |
| FindParse.AcceptsYield | util/sbase/find.c:864-931 | Every sentence of the grammar is accepted and gives its own expression |
| FindParse.AcceptedIsYield | util/sbase/find.c:864-931 | Everything accepted is a sentence of the grammar |
| FindParse.NeverExtraArguments | util/sbase/find.c:923-924 | The test for extra arguments never fires |
| FindParse.NoExpression | util/sbase/find.c:897-901 | Without any expression the result is `-print` |
| FindParse.ParseAcceptsGrammar | util/sbase/find.c:801-931 | An argument list is accepted if and only if it can be read and is empty or in the grammar; "extra arguments" is never the diagnostic |
| FindParse.ParseBuildsGrammarTree | util/sbase/find.c:801-931 | The tree built is the grammar's tree, joined to `-print` by `-a` exactly when no action was named |
| FindParse.GrammarUnambiguous | util/sbase/find.c:874-881 | Two grammar trees for the same tokens have the same expression, so precedence and associativity decide everything |
| FindProgram.LexCounts | util/sbase/find.c:815-853 | At most as many operators and parentheses as the stack has room for, at most as many primaries as arguments |
| FindProgram.Tokenise | util/sbase/find.c:814-856 | The infix array, of 2 * argc + 1 cells, is filled with exactly the tokens read and an end mark; the count and the print flag match them |
| FindProgram.Convert | util/sbase/find.c:864-895 | The conversion on arrays of the source's sizes gives the yard's output or its diagnostic, without leaving an array |
| FindProgram.RpnKeeps | util/sbase/find.c:862-905 | The output has no parentheses, keeps every primary and fits its array with the suffix |
| FindProgram.AttachPointers | util/sbase/find.c:912-922 | Filling in left and right pointers of one cell makes it the root of a tree over the trees on the stack, and spoils none of them |
| FindProgram.Link | util/sbase/find.c:912-927 | The linking pass leaves pointers that represent exactly the tree, or gives the diagnostic |
| FindProgram.Parse | util/sbase/find.c:801-931 | The whole of `parse`: the diagnostic, or pointers in the array that represent the parsed expression |
| FindEval.EvalIsMeaning | util/sbase/find.c:938-957 | If primaries answer 0 or 1, evaluating the linked tree gives the short-circuit truth value, in 0 or 1, and has run the same primaries in the same order |
| FindEval.NotNegatesExactly | util/sbase/find.c:956 | `!` negates if and only if its operand's value is 0 or 1 |
| FindEval.FindRunsExpression | util/sbase/find.c:897-903 | Evaluating what `parse` built gives the meaning of the whole expression, with `-print` run exactly when no action was named and the whole expression is true |
| FindWords.ItemsIff | util/sbase/find.c:816-852 | Words are read as a list of items if and only if they are the words of these items, as spelled, with each primary followed by the arguments it takes |
| FindWords.ItemsError | util/sbase/find.c:816-852 | Words that cannot be read begin with items that can, and what follows explains the diagnostic |
| FindWords.AcceptsSentences | util/sbase/find.c:801-931 | The words accepted are exactly the sentences of the grammar, and no words at all |
| FindWords.ParsesSentence | util/sbase/find.c:801-931 | A sentence gives its own tree, joined by AND to `-print` if and only if it names none of `-print`, `-print0`, `-exec` and `-ok` |
| FindWords.RunsSentence | util/sbase/find.c:938-957 | From the words of an expression to the effect of evaluating it |
| FindWords.MeaningHolds | util/sbase/find.c:938-957 | For tests that change nothing the meaning is the truth table of the connectives |
| FindWords.RunsInOrder | util/sbase/find.c:938-957 | The primaries run are run from left to right, the right side of `-a` only after a true left side and that of `-o` only after a false one |
| FindWords.EitherName | util/sbase/find.c:202-208 | `-name a -o -name b` becomes the OR of both, and then `-print` |
| Tsort.Find | util/sbase/tsort.c:28-52 | The search in a sorted list finds the name, or the place where it keeps the list sorted |
| Tsort.Graph.AddVertex | util/sbase/tsort.c:54-70 | One vertex more unless there already, no edge changed |
| Tsort.Graph.AddEdge | util/sbase/tsort.c:72-89 | One edge more unless there already; in-degrees stay the number of edges into each vertex |
| Tsort.Graph.Load | util/sbase/tsort.c:91-128 | The graph of the token pairs: exactly the tokens as vertices and the pairs of different tokens as edges; fails exactly for an odd number |
| Tsort.NewVertex | util/sbase/tsort.c:64-69 | Adding a vertex keeps lists sorted and in-degrees right |
| Tsort.NewEdge | util/sbase/tsort.c:82-86 | So does adding an edge |
| Tsort.OpenKeeps | util/sbase/tsort.c:136-137 | Printing a vertex keeps the invariant of the search |
| Tsort.FollowKeeps | util/sbase/tsort.c:138-148 | Following an edge keeps it, with the in-degree the number of edges not followed yet |
| Tsort.GreyReaches | util/sbase/tsort.c:144-147 | An edge to a vertex still open closes a path, so the loop reported is real |
| Tsort.PassEdge | util/sbase/tsort.c:138-144 | An edge that leads nowhere new leaves no vertex without waiting edges unvisited |
| Tsort.Graph.Visit | util/sbase/tsort.c:130-152 | A visit prints every vertex it opens once, follows all their edges, and reports whenever it closes a loop |
| Tsort.RootJudged | util/sbase/tsort.c:160-167 | A start at a vertex with edges still waiting happens only if there is a cycle, and then one is reported |
| Tsort.Graph.Turn | util/sbase/tsort.c:161-171 | One turn of the scan unlinks, skips or visits and moves on |
| Tsort.Graph.Round | util/sbase/tsort.c:160-171 | One round raises the bound on in-degrees, which never passes the number of vertices |
| Tsort.Graph.Sort | util/sbase/tsort.c:154-173 | The sort ends; each vertex is printed once; the result is 1 if and only if the graph is cyclic; otherwise edges go forward; reports are real loops |
| Tsort.OrderedIsAcyclic | util/sbase/tsort.c:154-173 | A complete order in which edges go forward excludes cycles |
| Tsort.SortPairs | util/sbase/tsort.c:181-209 | From tokens to exit status: 2 exactly for an odd number, 1 exactly for a cyclic graph, else an order that respects every pair |
| EdRing.RingInsert | util/sbase/ed.c:353-355 | The two relinks of an insertion put one line into the ring at that place |
| EdRing.RingDelete | util/sbase/ed.c:960-964 | The relink of a deletion takes exactly the lines between out of the ring |
| EdRing.RingRestart | util/sbase/ed.c:344-355 | Inserting between line 0 and itself leaves a ring of line 0 and the new line |
| EdRing.UndoneRelinked | util/sbase/ed.c:283-337 | Undoing the entry just logged by a relink gives the links before it |
| EdRing.UndoneChanges | util/sbase/ed.c:283-337 | Undoing the log of any series of relinks restores every link of every line |
| EdRing.LineWritten | util/sbase/ed.c:201-206 | A line appended to the scratch file is read back from its offset |
| EdRing.LineAtGrows | util/sbase/ed.c:229-265 | What is read at an offset does not depend on what was appended later |
| EdRing.SplitOne | util/sbase/ed.c:351-353 | A text of one line is split into just itself |
| Ed.Buffer.Begin | util/sbase/ed.c:1584-1600 | A command begins with the state to return to remembered |
| Ed.Buffer.NewUndo | util/sbase/ed.c:283-305 | The log entry records the links about to change; the first one of a command starts a new log for the command's start |
| Ed.Buffer.Relink | util/sbase/ed.c:311-318 | Two links are changed and nothing else, and undoing still gives the command's start |
| Ed.Buffer.Undo | util/sbase/ed.c:320-337 | Every link, the sequence of lines, `curln` and `lastln` are those of the start of the last command that changed anything |
| Ed.Buffer.Unwind | util/sbase/ed.c:327-331 | The loop applies the log backwards to its end |
| Ed.Buffer.Error | util/sbase/ed.c:78-92 | After an error the buffer is as the command found it |
| Ed.Buffer.GetIndex | util/sbase/ed.c:215-227 | Walking the next links from line 0 ends at the index of the line |
| Ed.Buffer.MakeLine | util/sbase/ed.c:177-213 | A new element, outside the ring, that holds exactly the first line of the text |
| Ed.Buffer.InjectLine | util/sbase/ed.c:352-358 | One line more at that place in the ring and in the text |
| Ed.Buffer.InjectAll | util/sbase/ed.c:351-359 | All lines of the text spliced in order; `curln` and `lastln` grow by their number |
| Ed.Buffer.Inject | util/sbase/ed.c:339-360 | The lines are spliced after the current line, or before it; called before line 0 of a buffer with lines, which no command does, it loses the old lines |
| Ed.Buffer.InjectLost | util/sbase/ed.c:344-359 | In that case the buffer would hold the new lines only |
| Ed.Buffer.Unlink | util/sbase/ed.c:960-964 | The ring and the texts lose exactly the range |
| Ed.Buffer.Delete | util/sbase/ed.c:952-965 | The range is removed, `curln` is the line after it or the new last one; a range that starts at line 0, as in an empty buffer, is refused and the buffer restored to its state when the command started, which `delete` does not change |
| Ed.Buffer.ReadBlock | util/sbase/ed.c:247-255 | The cache holds a block of the scratch file that covers the offset |
| Ed.Buffer.ReadCached | util/sbase/ed.c:256-259 | The copying stops at a newline or at the end of the block, with exactly the bytes between read |
| Ed.Buffer.ReadLine | util/sbase/ed.c:246-265 | The bytes from the offset to the newline, through any cache contents and across blocks |
| Ed.Buffer.GetText | util/sbase/ed.c:229-266 | The text of a line is what was stored for it |
| Ed.Buffer.Collect | util/sbase/ed.c:1000-1010 | The texts of the range are joined without their newlines, which for lines with known words is the concatenation of these |
| Ed.Buffer.CopyBody | util/sbase/ed.c:1003-1004 | Copying a text character by character up to its newline |
| Ed.BodyOf | util/sbase/ed.c:1003-1004 | Of a word and a newline just the word is copied |
| Ed.JoinedWords | util/sbase/ed.c:1000-1010 | Joining lines concatenates their words |
| Ed.Buffer.Join | util/sbase/ed.c:993-1014 | The joined line replaces the range, in its place if and only if the range does not end at the last line or starts at the first; else it is one line too early; the current line is the one after it, or the last |
| EdCommands.AppendLines | util/sbase/ed.c:932-950 | The lines typed come to stand after the line given, in order, and the last of them is the current line |
| EdCommands.Do | util/sbase/ed.c:1314-1384 | A command is refused exactly for a bad address, and then the state at the start of the whole command line is back; else lines and current line are as specified, and a log is begun exactly if it alters anything |
| EdCommands.AcceptedIff | util/sbase/ed.c:1314-1384 | A command is accepted exactly if it addresses some line and only existing ones, line 0 only for `a`, `i` and `j` |
| EdCommands.TypedStand | util/sbase/ed.c:932-950 | The lines typed after `a`, `i` and `c` stand where these belong, between what was beside that place and is beside them still; the last of them is current |
| EdCommands.CurrentStands | util/sbase/ed.c:952-1014 | After `d` the current line is the one behind the lines deleted, or the last; after `j` the one behind the joined line, or the last |
| EdCommands.JoinOfWords | util/sbase/ed.c:993-1014 | Of lines with known words `j` leaves one with the words of its range concatenated, in place, or one line too early at the end of the buffer |
| EdCommands.DoAll | util/sbase/ed.c:1519-1562 | A list of commands is refused exactly if one of them is, with the start of the line restored; else lines and current line are those of the commands in turn |
| EdCommands.UndoCommand | util/sbase/ed.c:1326-1333 | `u` leads back to the state the log was begun in, and fails exactly if there is no log, changing nothing |
| EdCommands.LineThenUndo | util/sbase/ed.c:1584-1600 | After any command line and `u` the links, lines and counters are those before the line if it was refused or changed anything; else `u` undoes the last line that did |
| Ed.JoinLastTwo | util/sbase/ed.c:993-1014 | Joining the last two of three lines leaves the concatenation of their words before the first |
| TftpPackets.HeaderRoundTrip | util/sbase/tftp.c:64-94 | Opcode and block number are read back from a packed header, the number modulo 65536 |
| Tftp.BlockFacts | util/sbase/tftp.c:211-217 | Successive reads cut the file into full blocks and one shorter, possibly empty, last block |
| Tftp.SendsBlock | util/sbase/tftp.c:211-224 | When the last block is acknowledged the packet sent is exactly the next block of the file behind its header, and is the last one if it is short |
| Tftp.NextInv | util/sbase/tftp.c:139-241 | Every step of sender, receiver or network keeps the invariant that ties counters, buffers and packets in flight to the file |
| Tftp.RunInv | util/sbase/tftp.c:139-241 | It holds in every state of every run |
| Tftp.TakeData | util/sbase/tftp.c:159-171 | A data packet is written exactly when it is the one expected, and is acknowledged in any case |
| Tftp.WrittenIsPrefix | util/sbase/tftp.c:159-168 | In every reachable state what was written is a prefix of the file |
| Tftp.SenderReturnsComplete | util/sbase/tftp.c:228-236 | When the sender returns the receiver has written the whole file |
| Tftp.ReceiverReturns | util/sbase/tftp.c:172-176 | When the receiver returns the file is complete if and only if its length is not strictly between 65535 * 512 and 65536 * 512 bytes; for 65536 * 512 bytes or more it never returns |
| Tftp.Round | util/sbase/tftp.c:139-241 | From any synchronised state a block can be sent, taken and acknowledged, or both sides return |
| Tftp.ReceiverCompleteIff | util/sbase/tftp.c:159-176 | All returning runs of the receiver are complete if and only if the length of the file is not strictly between 65535 * 512 and 65536 * 512 bytes |
| Tftp.BothReturnIff | util/sbase/tftp.c:139-241 | Some run lets both sides return if and only if the file has at most 65535 blocks |
| TftpLoops.PutFile.Turn | util/sbase/tftp.c:198-239 | One turn of the sender's loop on its buffers does the sender's step |
| TftpLoops.PutFile.PackBlock | util/sbase/tftp.c:212-218 | The next block is read behind its header, and a short one is the last |
| TftpLoops.PutFile.Arrive | util/sbase/tftp.c:203-209 | A packet, or a timeout, is taken in as the step machine says |
| TftpLoops.GetFile.Turn | util/sbase/tftp.c:146-188 | One turn of the receiver's loop does the receiver's step |
| TftpLoops.GetFile.Arrive | util/sbase/tftp.c:177-183 | A packet, or a timeout, is taken in as the step machine says |
| TftpRecovery.PacketBytes | util/sbase/tftp.c:64-94 | A data packet begins with 0, 3 and an acknowledgement with 0, 4, then the high and the low byte of the number |
| TftpRecovery.SenderWrites | util/sbase/tftp.c:211-219 | In every reachable state the sender's turn writes the whole packet of the block it is at, new or again |
| TftpRecovery.ReceiverWrites | util/sbase/tftp.c:172-174 | The receiver's turn writes the acknowledgement of the last packet taken, new or again |
| TftpRecovery.LossesCovered | util/sbase/tftp.c:120-241 | What can happen with losses could happen without: safety holds for it too |
| TftpRecovery.Recovers | util/sbase/tftp.c:139-241 | With nothing else on its way, up to four losses of a block or of its acknowledgement lead to the block after it, or to the return of both sides |
| TftpRecovery.GivesUp | util/sbase/tftp.c:219-226 | When a block is lost five times the sender ends with an error |
| TftpRecovery.LastAckLost | util/sbase/tftp.c:172-176 | When the last acknowledgement is lost the file is complete and, whatever happens, the sender never returns |
| SedMachine.PcInside | util/sbase/sed.c:1062-1063 | A step of a linked program ends inside the program |
| SedMachine.RunInside | util/sbase/sed.c:1047-1064 | On every run, whatever the script branches on, the program counter is inside the program before each turn and after the last; nothing is assumed of it but the start |
| SedMachine.UpdateRangesLog | util/sbase/sed.c:1203-1208 | `update_ranges` consults every addressed command of the stretch once, in order |
| SedMachine.StepOnTrack | util/sbase/sed.c:1606-1618 | A step without a branch, in particular one that skips a block or ends the cycle, leaves the record exactly that of the commands passed |
| SedMachine.EndOnTrack | util/sbase/sed.c:1675-1690 | Ending a cycle with `d`, `D` or `c` completes the record of the cycle |
| SedMachine.BranchOnTrackIff | util/sbase/sed.c:1220-1229 | A branch keeps the record right if and only if it goes forward to a command without addresses, or to itself with none after it |
| SedMachine.RunOnTrack | util/sbase/sed.c:1047-1064 | On every run of a program with such branches only, the record is that of exactly as many whole cycles as the run has returned to the first command, and of the part of the present one |
| SedMachine.RecordedCount | util/sbase/sed.c:1203-1208 | So each addressed command has been consulted once for each cycle completed, and once more if the present cycle is past it |
| SedNested.PlacedJumps | util/sbase/sed.c:1009-1027 | The offsets in the flat form of a nested script lead to the closing braces |
| SedNested.ProgramOk | util/sbase/sed.c:1009-1027 | The flat form of every script is a program the machine stays inside |
| SedNested.UpdateIsSkip | util/sbase/sed.c:1203-1208 | Updating ranges over the flat form is skipping the nested script, block by block |
| SedNested.StepLeaf | util/sbase/sed.c:1245-1269 | One step of the machine on a command is the command's meaning, with the rest cut short where the cycle ends |
| SedNested.OpenLeads | util/sbase/sed.c:1606-1618 | The machine at `{` enters the body when the addresses match and else lands after the block, having skipped it |
| SedNested.SimScript | util/sbase/sed.c:1047-1064 | From its first command on, the machine does what the nested script means |
| SedNested.FlatCycle | util/sbase/sed.c:1047-1064 | One cycle of the flat program is one cycle of the script: same registers, same range state, same record |
| SedNested.FlatRun | util/sbase/sed.c:1047-1064 | For any number of cycles, the flat program run from its start reaches the state the script means, and stands at its first command again while sed goes on |
| SedNested.NestedTidy | util/sbase/sed.c:1009-1027 | The flat form of a script without branches is a program whose record stays right |
| SedNested.NestedOnTrack | util/sbase/sed.c:1199-1208 | In a script without branches every addressed command has its range consulted exactly once in each cycle completed, in order, executed or not |
| SedNested.FlatPlaced | util/sbase/sed.c:1009-1027 | Wherever its flat form stands in a program, a script's commands and both braces of each block stand at the offsets the meaning uses |
| SedCompile.CompileScript | util/sbase/sed.c:1009-1027 | Reading a nested script stores its flat form, whatever was read before |
| SedCompile.ReadsScript | util/sbase/sed.c:1009-1027 | Whatever is read without error, with no brace open, is a nested script |
| SedCompile.CompilesIffNested | util/sbase/sed.c:369-434 | A script without branches compiles if and only if its braces nest, and then to the flat form of the nested script |
| SedProgram.FirstLabel | util/sbase/sed.c:694-700 | The first label of a name, or none |
| SedProgram.ReadCommand | util/sbase/sed.c:1009-1027 | Pushing and popping the brace vector is the reading step |
| SedProgram.ReadScript | util/sbase/sed.c:403-430 | Reading all commands fills program, braces and branches as specified, or reports an extra brace |
| SedProgram.LookUp | util/sbase/sed.c:694-700 | The loop finds the first label |
| SedProgram.InsertLabels | util/sbase/sed.c:682-705 | Every pending branch gets its destination and nothing else changes; fails exactly if a label is missing |
| SedProgram.ResolvedInside | util/sbase/sed.c:682-705 | A complete program meets everything the machine needs to stay inside it |
| SedProgram.Build | util/sbase/sed.c:369-434 | The diagnostic, or a linked program; it fails exactly for braces that do not nest or missing labels |
| SedProgram.BuiltRun | util/sbase/sed.c:1047-1064 | The program built from a script without branches runs as the nested script means, for any number of cycles, and is back at its first command while sed goes on |
| SedProgram.InStepIsTidy | util/sbase/sed.c:690-698 | A branch to a later label is safe; one without a label is safe if and only if it ends the script itself or a `}` or label does |
| SedProgram.TidyIffInStep | util/sbase/sed.c:690-698 | The condition on programs, read off the script |
| SedProgram.TwoScriptsBuild | util/sbase/sed.c:682-705 | `1b;1,3p` and `1d;1,3p` both build; the branch of the first is not in step |
| SedProgram.BranchMissesRange | util/sbase/sed.c:1199-1229 | Whatever program is linked from `1b;1,3p` leaves the range of `p` closed on line 1, and the one from `1d;1,3p` opens it |
| SedProgram.Sed.Match | util/sbase/sed.c:1087-1107 | `match_addr` on the globals |
| SedProgram.Sed.Consulted | util/sbase/sed.c:1067-1084 | `in_range` on the globals, branch by branch |
| SedProgram.Sed.InRange | util/sbase/sed.c:1067-1084 | The same with the record of consults |
| SedProgram.Sed.Update | util/sbase/sed.c:1203-1208 | The loop of `update_ranges` |
| SedProgram.Sed.NewNext | util/sbase/sed.c:1675-1682 | `new_next` on the globals |
| SedProgram.Sed.Jump | util/sbase/sed.c:1226-1228 | The jump of `b` and `t` on the globals |
| SedProgram.Sed.Turn | util/sbase/sed.c:1062-1063 | One turn of the loop is one step of the machine, and the program counter stays valid |
| SedProgram.Sed.Command | util/sbase/sed.c:1220-1269 | The part of a command after `in_range` |
| SedProgram.Sed.EndCycle | util/sbase/sed.c:1231-1269 | `d`, `D` and `c` in their range end the cycle as the machine does, `c` printing its text on the last line of its range only |
| SedRanges.MatchAddrHits | util/sbase/sed.c:1087-1107 | An address matches exactly the lines it names, the last line, or those its expression matches; only an empty expression without one before is fatal |
| SedRanges.SpanLines | util/sbase/sed.c:1067-1084 | Over any sequence of consults from a closed range: two addresses are in range exactly on lines that meet the first or on which the range was opened before and not closed since; `!` is the complement |
| SedRanges.OneAddress | util/sbase/sed.c:1067-1084 | One address is in range exactly on the lines that meet it |
| SedRanges.NumberedLines | util/sbase/sed.c:1067-1084 | The addresses `m,n` are the lines from m to n, or m alone |
| SedRanges.RunSpans | util/sbase/sed.c:1047-1084 | So it is for every command on every run of any script |
| SedRanges.CarriedOut | util/sbase/sed.c:1203-1269 | A command takes effect exactly when it is in range |
| SedRanges.LinesInRange | util/sbase/sed.c:1047-1084 | In scripts with branches in step that read a line at the end of each cycle only, a command is consulted on each line of input once, and `m,n` is in range exactly on the lines m to n |
| SedRanges.NestedLines | util/sbase/sed.c:1199-1208 | The same for every such script without branches |
| SedOutput.OnlyRuns | util/sbase/sed.c:1213-1418 | A script of one command on every line prints and keeps what this command does, then the line unless `-n` was given |
| SedOutput.PrintedAlone | util/sbase/sed.c:1305-1401 | `p`, `i` and `=` with `-n` print the line, the text and the number of the line |
| SedOutput.FirstPrinted | util/sbase/sed.c:1385-1401 | `P` prints the pattern space up to its first newline |
| SedOutput.PrintedLater | util/sbase/sed.c:1163-1198 | What `a` and `r` schedule is printed after the line |
| SedOutput.PrintedWithLine | util/sbase/sed.c:1378-1383 | Without `-n`, `p` prints the line twice and `i` its text before it |
| SedOutput.PrintedFromHold | util/sbase/sed.c:1271-1302 | `g`, `x` and `G` print the hold space, `h` and `H` leave the line |
| SedOutput.Kept | util/sbase/sed.c:1288-1302 | What `h`, `H` and `x` leave in the hold space; `x` twice is nothing, and a line put there is got back |
| SedOutput.QuitAndNext | util/sbase/sed.c:1357-1411 | `q` prints the line and reads no more, `n` prints it and goes on with the next, `N` appends the next |
| SedOutput.NoNextLine | util/sbase/sed.c:1641-1672 | At the end of the input `n` prints and stops, `N` stops |
| SedOutput.FirstDeleted | util/sbase/sed.c:1254-1269 | `D` begins a new cycle on what follows the first newline, nothing read or printed |
| SedOutput.BlockIsRange | util/sbase/sed.c:1606-1618 | A command in a block does what it does with the addresses of the block, for all but `c` |
| SedOutput.TestJumps | util/sbase/sed.c:1527-1537 | After a line is read, `t` jumps exactly if an `s` has replaced something since, and then forgets it |
| SedOutput.EmptyScriptCopies | util/sbase/sed.c:1626-1638 | The empty script prints its input line by line, or nothing with `-n` |
| SedOutput.DecimalIs | util/sbase/sed.c:1599-1604 | The number printed has that value in decimal, without leading zeros |
| SedFilter.WholeRun | util/sbase/sed.c:1047-1064 | A script of `p`, `d` or `c` with any addresses but the empty expression, run over the whole input: it ends there and has printed, line by line, what the answers to the consults say |
| SedFilter.PrintsMatching | util/sbase/sed.c:1245-1252 | `-n /re/p` prints exactly the lines that match, `/re/d` exactly the others, in order |
| SedFilter.PrintsLines | util/sbase/sed.c:1378-1383 | `-n m,np` prints exactly lines m to n of the input, or m alone |
| SedFilter.CutsLines | util/sbase/sed.c:1231-1252 | `m,nd` prints exactly the others, and `m,nc` its text in their place if the range comes to its end |
| SedSubst.ExpandPlain | util/sbase/sed.c:1462-1463 | Text without `&` and backslash stands for itself |
| SedSubst.Span | util/sbase/sed.c:1462 | The next special character of the replacement |
| SedSubst.Mark | util/sbase/sed.c:1465-1485 | `&`, a back reference, or an escaped character gives its text; a group that is not there is the fatal error |
| SedSubst.Replacement | util/sbase/sed.c:1461-1487 | The inner loop gives the expanded replacement, and fails exactly if it refers to a missing group |
| SedSubst.HitsChain | util/sbase/sed.c:1443-1507 | The matches that count do not overlap and stand where they say |
| SedSubst.HitsAdvance | util/sbase/sed.c:1443-1507 | Each ends further on than the one before, so there are at most as many as characters and one more |
| SedSubst.RemainingIsChosen | util/sbase/sed.c:1456-1457 | Counting on picks all matches for `g`, and for a number exactly that one |
| SedSubst.SpliceSame | util/sbase/sed.c:1476-1478 | Replacing matches by what they matched changes nothing |
| SedSubst.AmpersandKeeps | util/sbase/sed.c:1421-1525 | With replacement `&` the pattern space is unchanged for every matcher and every occurrence flag |
| SedSubst.Take | util/sbase/sed.c:1456-1491 | The part of a turn that replaces or copies |
| SedSubst.Skip | util/sbase/sed.c:1493-1507 | The part of a turn that steps over an empty match by one rune |
| SedSubst.Turn | util/sbase/sed.c:1443-1508 | One turn moves on, or was the last on the empty rest, and keeps what is put together and what is ahead in agreement with the result |
| SedSubst.Substitute | util/sbase/sed.c:1421-1519 | The loop ends; the pattern space has the chosen matches replaced and all else in its place; the flag is set exactly if something was chosen; fatal exactly for a missing group |
| SedPieces.WrittenStandsFor | util/sbase/sed.c:1461-1487 | A replacement written of pieces stands for the concatenation of what they denote, group d for the text of group d, and is refused exactly if some group is missing |
| SedPieces.EveryTextWritten | util/sbase/sed.c:1461-1487 | Every replacement without a lone backslash at its end is written of pieces |
| SedPieces.WrittenOnce | util/sbase/sed.c:1461-1487 | In one way only |
| SedPieces.ReplaceBy | util/sbase/sed.c:1461-1487 | The inner loop on the written text gives what the pieces denote |
| SedPieces.OneReplaced | util/sbase/sed.c:1456-1491 | With one match replaced the rest of the pattern space stays |
| SedPieces.FirstGroup | util/sbase/sed.c:1480 | `\1` for `\(a\)b` on `ab` gives `a` |
| SedEverywhere.ReplacesCharacter | util/sbase/sed.c:1421-1519 | For an expression that is one character, `g` replaces each of it and a number n the n-th, and nothing else |
| SedEverywhere.ReplacesRuns | util/sbase/sed.c:1443-1507 | For `c*`, each run of c is a match, and the empty text at each place that no run touches |
| SedEverywhere.ReplacesStart | util/sbase/sed.c:1443-1507 | For `^`, the text comes before the line, once |
| Join.CompareSame | util/sbase/join.c:158-175 | For a total order of the keys, lines compare equal exactly if both have the key and the keys are equal |
| JoinKeys.KeysThenRest | util/sbase/join.c:168-169 | Comparing the bytes of the longer key's length, a difference of the keys decides; if one key is the start of the other, what follows it in its line decides |
| JoinKeys.StaysInLines | util/sbase/join.c:168-169 | In lines that end in a NUL, the only one, the comparison is decided before either line ends |
| JoinKeys.BlankedByKey | util/sbase/join.c:158-175 | Keys without control characters, followed by a blank or the end of the line, compare as the keys alone |
| JoinKeys.KeysTotal | util/sbase/join.c:158-175 | That comparison of keys is a total order, as the merge needs |
| JoinKeys.SeparatorDecides | util/sbase/join.c:168-169 | In the middle of a line a key that is the start of another compares as the separator does with what the other goes on with |
| JoinKeys.EndDecides | util/sbase/join.c:168-169 | At the end of its line it comes first, whatever the separator |
| JoinKeys.OrderOfKeysIff | util/sbase/join.c:158-175 | The comparison of fields is given by their keys, in any order of keys at all, if and only if no key is the start of another that goes on with what is not above a separator; it is then the order of their bytes |
| JoinKeys.OneByteIff | util/sbase/join.c:158-175 | For a separator of one character: if and only if no key is the start of another that goes on with a character below it |
| JoinKeys.BlanksSeparate | util/sbase/join.c:158-175 | Keys without control characters meet the condition for blanks |
| JoinKeys.ColonOrder | util/sbase/join.c:158-175 | With `-t :` the key `a` comes after `a1` in the middle of a line and before it at the end |
| Join.FrontLess | util/sbase/join.c:374-387 | If the first line of one file is smaller, it has no match in the other |
| Join.GroupEnds | util/sbase/join.c:402-417 | What follows the lines read as a group is past the group |
| Join.InnerOfGroup | util/sbase/join.c:402-420 | Two groups contribute their product, and the rests are joined separately |
| Join.MergeIsInner | util/sbase/join.c:360-449 | On sorted files the pairs printed are those of two nested loops, in order, also when a file ends inside a group |
| Join.LosesPassed | util/sbase/join.c:374-401 | Lines passed over do not decide what is lost |
| Join.LosesGroup | util/sbase/join.c:433-445 | Nor does a group, unless a file ends in it |
| Join.MergeIsOuterIff | util/sbase/join.c:360-449 | Everything wanted is printed if and only if neither file ends in a matching group, or is empty, before wanted lines of the other |
| Join.EmptyFirstFile | util/sbase/join.c:360-449 | With `-a 2`, an empty first file and one line in the second: the line is wanted and not printed |
| Join.EndsInGroup | util/sbase/join.c:433-445 | With `-a 2`, one line in the first file that matches the first of two in the second: the other is wanted and not printed |
| Join.OuterIsUnmatched | util/sbase/join.c:374-401 | The full merge prints for each file exactly the lines without a match, once, in order |
| JoinBytes.MergeIsByKey | util/sbase/join.c:360-449 | With such keys the merge on the source's comparison is the merge by key, for all options |
| JoinBytes.Misjoined | util/sbase/join.c:388-401 | Two other keys, a file with both and one with the longer: the pair is lost, or comes after a pair that does not match |
| JoinBytes.JoinsIff | util/sbase/join.c:360-449 | All files with given keys and separators, sorted by key, have exactly the pairs of two nested loops printed if and only if no key is the start of another that goes on with what is not above a separator |
| JoinBytes.ColonMisjoins | util/sbase/join.c:388-401 | `join -t :` on `a:x` and `a1:y`, and `a1:z`, prints nothing, although `a1` is in both |
| JoinLoop.Span.Add | util/sbase/join.c:245-271 | One more line held, in a span grown as needed; false exactly at the end of the file |
| JoinLoop.Span.ReadGroup | util/sbase/join.c:403-416 | The span holds the whole group and the line after it, or counts one line more at the end of the file |
| JoinLoop.Span.Keep | util/sbase/join.c:433-445 | The line after the group becomes the first, or nothing is held |
| JoinLoop.PrintPairs | util/sbase/join.c:190-198 | All pairs of two groups, the last line held of each left out |
| JoinLoop.PrintRest | util/sbase/join.c:379-382 | The rest of a file is printed |
| JoinLoop.TurnAlone | util/sbase/join.c:374-401 | A line without a match is printed if asked for, with the rest of the other file if it was the last one |
| JoinLoop.TurnSame | util/sbase/join.c:402-445 | Two groups are read and their pairs printed; what is left of each file starts with the line after its group |
| JoinLoop.Turn | util/sbase/join.c:373-446 | One turn prints what the merge says and leaves the rest of both files |
| JoinLoop.JoinFiles | util/sbase/join.c:360-449 | The loop prints exactly the merge, and ends |

## Left out

- The other tools, Libreboot's own programs (nvmutil, spkmodem_decode, dell-flash-unlock, mkhtemp) and its scripts: not needed for the results above, or system calls and hardware.
- I/O, locales, memory exhaustion and option parsing everywhere; files are sequences of bytes or lines.
- find: primaries and the checks of their arguments are oracles; directory walking is not part of this model.
- sed: reading addresses and arguments from the text of a script, "wrong number of addresses", and compiling regular expressions; scripts are lists of commands.  All input files count as one list of lines.  `l`, `r`, `w`, `y` and the matching of regular expressions are oracles.  The last command, whose range the source leaves unset, has an ignored range.
- Ed.Buffer.Join: a range from line 0 to a later line, which `0,1j` passes, is not covered: the text of line 0 is empty, without a newline, and the loop at ed.c:1002 runs past its end.
- EdCommands.Do: reading a command line, the test of its form, marks and searches in addresses; `u` in the list of a `g`.
- SedRanges.LinesInRange: scripts with `n`, `N` or `D` are not covered, since there a command may be consulted on a line twice or never; SedRanges.RunSpans covers them, line by line as consulted.
- SedEverywhere.ReplacesRuns: on text of one-byte characters; the rune length is that of the source's library elsewhere.
- SedMachine.RunOnTrack: the record of consulted ranges is a device of the proof; the source has none.
- SedNested.FlatRun: states the result for every way of consulting ranges and every effect of commands on the registers that never stops the run by itself; SedMachine.EnvOf gives sed's own.
- SedSubst.Substitute: printing with the `p` and `w` flags; the place of an empty group, which is never read; that `matches` is an `unsigned int`.
- ed: regular expressions, `move`, `copy`, substitution, marks, the `global` flags, input and output errors.  The links of a new element are arbitrary before they are set.  Texts inserted end in a newline and contain no NUL, as the callers see to.
- tftp: sockets, names and modes in requests, ERROR packets from the other side, `sendto` failing; timeouts are free choices of the network.  The reader's request stands for ACK 0, the writer's request is not delivered, and reads of 512 bytes are full but for the last.
- tsort: splitting the input into tokens, file handling, and strings with NUL.  Not every cycle is reported: an edge to a finished vertex is silent.
- join: splitting lines into fields and printing them (`-t`, `-o`, `-e`).
- Join.CompareSame: assumes a total order of the keys, `Total(ord)`, as do the theorems on the merge by key; JoinBytes.MergeIsByKey and JoinBytes.JoinsIff say for which keys and separators the source's comparison is one, and what happens to other keys.
- Join: the branch for lines without the join field is never reached in the source, since its number is negative; such lines are taken to come first.
- JoinLoop.TurnAlone: the branches for a line of the first and of the second file, which differ in names only, share one method.
