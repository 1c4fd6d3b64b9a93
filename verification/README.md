# Verified models of llama.cpp and blobpager

A Dafny model of the parts of the repository whose correctness is hardest to see: the streaming of tool calls, the
console's line editor, the factored tensors of the adapter converter, and several parsers, printers and small
algorithms. Everything is proved for all inputs that the contracts admit, and the preconditions that the source does not
have are listed under "Left out"; `dafny verify dfyconfig.toml` checks it.

## What is modelled

**Streaming tool calls.** `ToolCallMapper` is the state machine that turns the nodes of a parsed reply into a message.
`JsonText`, `QuoteNormalizer` and `PythonLiteral` are the text work below it: escaping, counting braces, and rewriting
Python literals to JSON, where the rewriting of all values and the exact cuts at which streaming them is safe are
proved. `MessageDiff` computes the deltas between two messages and applies them as a client does; `Streaming` joins the
two over whole runs: as long as every cut of a reply is a safe one, no delta fails and the client ends with the final
message; at an unsafe cut of a literal argument the next delta cannot be computed. `ToolArguments` says what the
finished arguments are for any argument list, and when they are its plain print, `WholeReplies` reads whole replies,
`MiniMax` and `ParsePaths` treat the printer of argument trees that may be truncated at any depth and where in a parse
it looks, and `Permute` the memoised grammar for fields in any order, against a declarative meaning of grammars.

**The line editor.** `Utf8` encodes and decodes; `LineHistory` and `LineEditor` are the classes with the byte buffer,
the widths and the two cursors, refining a list of code points with one cursor. The terminal column is a ghost counter
of the model.

**Factored tensors.** `Tensor` has dense tensors and the library's operations as index maps; `FactoredTensor`,
`FactoredReshape`, `FactoredPermute` and `FactoredRuns` prove that the operations on two factors commute with their
product, and `FactoredTrees` that every expression built from operations, stacks and joins does.

**Caches and pins.** `LruWorkset` compares the cache simulation with reuse distances; `FrequencyPins` shows the pins of
a stream to be its best static cache.

**Parsers and printers.** `Base64`, `Glob`, `CsvRow`, `DiffSplit`, `GgufValues`, `GgmlFile` (with `LittleEndian`) and
the dynamic programme of `LongestCommonSubstring`; `RowBytes` compares two tables of block sizes. `Basics` and
`Wrappers` hold what several modules share.

Code that the repository writes as loops over variables or as objects with fields is written as methods and classes
here, each proved against a function of its input or of its old state; the theorems are about those functions.

## What was found

- A literal argument cut inside a bare word such as `Trash`, or right after the backslash of an escaped single quote,
  shows text that has to be taken back, and computing the next delta throws (`Streaming.UnsafeCutsThrow`); all other
  cuts of a literal argument are safe (`Streaming.CutRunDiffsExactly`).
- The code after the traversal that adds a named pending call is never effective (`ToolCallMapper.SettledNeverFlushes`).
- The comparison of templates can lose a segment that is doubled in one of the texts (`DiffSplit.DoubledMarkerIsLost`);
  the exact condition on the segments is proved (`DiffSplit.DiffIsLosslessExactly`).
- A value that comes before the first key of a call, and before its name, loses the opening brace
  (`ToolArguments.NamePositionIsIrrelevantExactly`).
- Closing braces that are added while the arguments end inside a string are only more text
  (`ToolArguments.CloseBalances`).
- A completion leaves the mark for a trailing slash as it was. When a path that ends in a slash is completed to a file
  below it, Enter drops the last byte of the file's name; if the name ends in a letter of several bytes, the line that
  is handed over and remembered is no longer UTF-8 (`LineEditor.CompletedLineIsCutOff`,
  `LineEditor.CompletedPathIsCutOff`).
- The shortcut of the cache simulation returns a rate of one although each expert's first use would miss
  (`LruWorkset.ShortcutIgnoresColdMisses`); the rate is monotone all the same.
- In `[!]...]` the first bracket closes the class, whatever follows, although the comment in the code calls it a literal
  (`Glob.BracketAfterNegationCloses`).
- An ellipsis before the last slice is expanded rightly for matrices only, and for slices that leave two axes their size
  (`FactoredTensor.GetEllipsisCommutesExactly`).
- Factors that are joined along a leading axis can fit and be wrong, if one of the tensors is empty
  (`FactoredTrees.JoinedWithEmptyIsWrong`); indexing the last two axes with integers is never right
  (`FactoredTensor.GetTupleExactly`).
- The byte count of a tensor entry may wrap around, and loading a file of 68 bytes then never ends
  (`GgmlFile.WrappedSizeNeverEnds`); the loop over tensors ends unless it comes to one place twice
  (`GgmlFile.LoopNeverEndsExactly`).
- An empty array of an unknown element type is read by one reader and refused by another
  (`GgufValues.SummaryFollowsRead`), and four block sizes differ from those of the format, one of which gives the right
  row size three times all the same (`RowBytes.RowBytesExactly`).

## Model

| member | source | states |
|---|---|---|
| `JsonText.EscapeIsMonotone` | llama.cpp/common/chat-peg-parser.cpp:71-77 | the escaped text of a prefix is a prefix of the escaped text, so a half-read string never shows text that is taken back |
| `JsonText.ReadQuoted` | llama.cpp/common/chat-peg-parser.cpp:71-77 | an independent reader of JSON strings gets the original text back from the quoted one and leaves what follows untouched |
| `JsonText.EscapeIsShortest` | llama.cpp/common/chat-peg-parser.cpp:71-77 | no shorter text is read as a character than its escape, so that the short forms are used where JSON has them and control characters never stand bare |
| `JsonText.JsonBraceDepth` | llama.cpp/common/chat-peg-parser.cpp:42-68 | the loop computes the depth of the scan over the whole text |
| `JsonText.QuotedIsBalanced` | llama.cpp/common/chat-peg-parser.cpp:42-68 | a quoted string, whatever is in it, leaves the brace counter where it was |
| `JsonText.BracedIsBalanced` | llama.cpp/common/chat-peg-parser.cpp:42-68 | braces around balanced text are balanced |
| `QuoteNormalizer.NormalizeQuotesToJson` | llama.cpp/common/chat-peg-parser.cpp:84-186 | the loop over flags and a bare-word scan is the rewriting function on the whole input |
| `QuoteNormalizer.RewriteOne` | llama.cpp/common/chat-peg-parser.cpp:134-182 | what one character outside an escape pair becomes, and the quoting mode after it |
| `QuoteNormalizer.ScanWord` | llama.cpp/common/chat-peg-parser.cpp:163-166 | the inner loop stops at the end of the run of word characters |
| `QuoteNormalizer.PrefixRewritesToPrefix` | llama.cpp/common/chat-peg-parser.cpp:84-186 | for every split of every text: the rewriting of the first part is a prefix of the rewriting of the whole if and only if the cut is neither between a backslash and the single quote it escapes nor inside a bare word that so far reads as a beginning of True, False or None |
| `QuoteNormalizer.LengthIsMonotone` | llama.cpp/common/chat-peg-parser.cpp:84-186 | however the cut falls, the rewriting of the whole is no shorter than that of the first part |
| `PythonLiteral.RewriterPreservesValues` | llama.cpp/common/chat-peg-parser.cpp:84-186 | for every value tree, with any white space between its parts and around it, the rewriter turns its Python text into its JSON text, and leaves its JSON text alone |
| `PythonLiteral.LeftAloneExactly` | llama.cpp/common/chat-peg-parser.cpp:84-186 | any text is left alone if and only if, outside the strings that the brace counter sees, it has no single quote and no bare word that reads as a beginning of True, False or None |
| `PythonLiteral.JsonIsLeftAlone` | llama.cpp/common/chat-peg-parser.cpp:84-186 | so is every text that outside its strings has only the characters of JSON, whatever its spacing and its escapes |
| `PythonLiteral.SingleQuotedMeansSame` | llama.cpp/common/chat-peg-parser.cpp:84-186 | however a string in single quotes is written, an independent reader of JSON gets from the rewriting what an independent reader of Python gets from the string |
| `PythonLiteral.ValueRewrites` | llama.cpp/common/chat-peg-parser.cpp:84-186 | the same for a value in front of any text that may follow one |
| `PythonLiteral.StreamedValueIsMonotone` | llama.cpp/common/chat-peg-parser.cpp:84-186 | on a prefix of the text of a value, spaced in any way, the output is a prefix of the JSON text if and only if the cut is not between a backslash and the single quote it escapes |
| `PythonLiteral.JsonIsBalanced` | llama.cpp/common/chat-peg-parser.cpp:42-68 | the brace counter is where it started after the JSON text of any value |
| `ToolCallMapper.Mapper.Map` | llama.cpp/common/chat-peg-parser.cpp:315-456 | handling one node changes the fields exactly as the state machine says, in every branch |
| `ToolCallMapper.Mapper.MapId` | llama.cpp/common/chat-peg-parser.cpp:350-356 | the id, trimmed and without its quotes, goes to the current call |
| `ToolCallMapper.Mapper.MapName` | llama.cpp/common/chat-peg-parser.cpp:358-373 | the name moves the pending call, with the buffered arguments or an opening brace, into the result |
| `ToolCallMapper.Mapper.MapArgs` | llama.cpp/common/chat-peg-parser.cpp:375-382 | raw arguments that begin with a brace replace the argument text |
| `ToolCallMapper.Mapper.MapArgName` | llama.cpp/common/chat-peg-parser.cpp:388-401 | a quoted key, with a comma from the second on and an opening brace if the text is empty |
| `ToolCallMapper.Mapper.MapValue` | llama.cpp/common/chat-peg-parser.cpp:403-424 | a string value opens a quote once and is escaped; a literal is rewritten |
| `ToolCallMapper.Mapper.MapArgClose` | llama.cpp/common/chat-peg-parser.cpp:426-431 | an open quote is closed |
| `ToolCallMapper.Mapper.MapClose` | llama.cpp/common/chat-peg-parser.cpp:433-455 | an open quote is closed, then the missing closing braces are added, and an unnamed pending call is dropped |
| `ToolCallMapper.Mapper.FlushPending` | llama.cpp/common/chat-peg-parser.cpp:287-298 | the code after the traversal |
| `ToolCallMapper.Mapper.FromAst` | llama.cpp/common/chat-peg-parser.cpp:284-313 | the whole traversal yields the message of the run, whose content is all content text and whose reasoning is all reasoning text, unless that is blank |
| `ToolCallMapper.StepKeepsValid` | llama.cpp/common/chat-peg-parser.cpp:315-456 | every step keeps the invariant tying the current call to the pending call or to the last call of the result |
| `ToolCallMapper.SettledIsKept` | llama.cpp/common/chat-peg-parser.cpp:315-456 | a pending call that is current stays unnamed, with any finished one dropped |
| `ToolCallMapper.SettledNeverFlushes` | llama.cpp/common/chat-peg-parser.cpp:287-298 | in a reachable state the code after the traversal that adds a named pending call never does so |
| `ToolCallMapper.MessageTexts` | llama.cpp/common/chat-peg-parser.cpp:315-329 | for every defined trace: the content is the texts of the content nodes in order, and the reasoning those of the reasoning nodes, or nothing if they are only white space |
| `ToolCallMapper.TrimTrailingExactly` | llama.cpp/common/chat-peg-parser.cpp:10-22 | every space at the end of a text goes, and nothing else |
| `ToolCallMapper.TrimExactly` | llama.cpp/common/chat-peg-parser.cpp:24-38 | at most one space at the front goes, and every one at the end |
| `ToolCallMapper.UnquotedExactly` | llama.cpp/common/chat-peg-parser.cpp:350-356 | quotes around an id are taken off, and only both of them |
| `WholeReplies.WholeReplyIsRead` | llama.cpp/common/chat-peg-parser.cpp:284-456 | the message of any reply of thoughts, text and finished calls, tagged or raw, with or without an id, is exactly their texts and their calls in order |
| `WholeReplies.CallIsRead` | llama.cpp/common/chat-peg-parser.cpp:342-455 | one finished call adds itself, with its name, arguments and id, and changes nothing else |
| `Streaming.StepGrowsExactly` | llama.cpp/common/chat-peg-parser.cpp:315-456 | a node makes the shown message grow if and only if its guard holds (a first or non-empty id, a name or raw arguments that extend the shown ones) |
| `Streaming.LegalRunGrows` | llama.cpp/common/chat-peg-parser.cpp:284-456 | over every trace that is legal for the automaton of the tool grammars (one name and one raw argument text a call, an argument closed before the next string value, no second id that is empty), the message only grows |
| `Streaming.EssentialRun` | llama.cpp/common/chat-peg-parser.cpp:315-456 | a trace does the same as what matters of it: without other nodes, without argument nodes that start no object, and without the text of opening and closing tags |
| `Streaming.LegalNodesAreLegalTrace` | llama.cpp/common/chat-peg-parser.cpp:505-514 | a trace that is legal node by node is legal in what matters of it |
| `Streaming.EnclosingNodesMayGrow` | llama.cpp/common/chat-peg-parser.cpp:505-514 | a node that encloses the tagged arguments of a call may have any text at either of two moments of a stream |
| `Streaming.CutValueGrowsExactly` | llama.cpp/common/chat-peg-parser.cpp:403-424 | cutting a literal argument value shows text that stays if and only if the cut is safe for the rewriter |
| `Streaming.CutValueDiffsExactly` | llama.cpp/common/chat-peg-parser.cpp:403-424 | for a literal value of a visible named call: the deltas from the message of the cut to that of the whole value can be computed if and only if the cut is safe |
| `Streaming.CutRunDiffsExactly` | llama.cpp/common/chat.cpp:57-70 | the same over whole runs, for any two moments whose traces agree, in what matters, up to a literal value of a named call |
| `Streaming.UnsafeCutsExist` | llama.cpp/common/chat-peg-parser.cpp:403-424 | two concrete cuts that are not safe: after the backslash of an escaped quote, and inside the bare word Trash |
| `Streaming.UnsafeCutsThrow` | llama.cpp/common/chat.cpp:57-70 | at any two such moments, each of the two cuts makes the next delta fail |
| `Streaming.CutGrows` | llama.cpp/common/chat-peg-parser.cpp:284-456 | from every reachable state, the message of a cut trace grows into the message of the trace, where all nodes but the last that matter are complete |
| `Streaming.StreamedMessagesGrow` | llama.cpp/common/chat-peg-parser.cpp:284-456 | an earlier moment of a stream against a later one: texts and last arguments are prefixes, earlier calls are unchanged |
| `Streaming.StreamReachesFinalMessage` | llama.cpp/common/chat.cpp:267-333 | when each moment of a legal reply is a cut of the next that `Streaming.IsCutOf` admits (literal values cut safely, names and ids whole, enclosing nodes in any way), computing the deltas between successive messages never throws, and applying all of them to the empty message gives the final message |
| `MessageDiff.ComputeDiffs` | llama.cpp/common/chat.cpp:267-333 | the method that appends deltas computes the list of deltas, or the same failure |
| `MessageDiff.DiffsSucceedExactly` | llama.cpp/common/chat.cpp:57-70 | computing deltas does not throw if and only if the texts are comparable, no call is lost, and the last known call keeps its name |
| `MessageDiff.DeltasRebuild` | llama.cpp/common/chat.cpp:267-333 | what a client holds after applying the deltas, for every pair of messages on which they can be computed |
| `MessageDiff.ChangedCallIsSentWhole` | llama.cpp/common/chat.cpp:290-320 | the delta of a call whose id or name has changed says both, any other says neither |
| `MessageDiff.DeltasCarryOneThing` | llama.cpp/common/chat.cpp:267-333 | a delta carries reasoning, content or a call, and never two of them |
| `MessageDiff.ClientFollowsExactlyGrowth` | llama.cpp/common/chat.cpp:267-333 | deltas are computed and lead the client to the new message if and only if the message has grown |
| `MessageDiff.ClientFollowsRun` | llama.cpp/common/chat.cpp:267-333 | over a whole growing run nothing throws and the client ends with the last message |
| `MessageDiff.GrowsIsTransitive` | llama.cpp/common/chat.cpp:267-333 | growth over several moments is growth |
| `ToolArguments.FinishedCallIsPrinted` | llama.cpp/common/chat-peg-parser.cpp:342-455 | after open, name, any arguments with any texts and close, the result holds one more call with the open argument text and exactly the braces that the counter finds missing, and nothing else has changed; these are the plain print of the argument list if and only if one brace is missing |
| `ToolArguments.BalancedCallIsPrinted` | llama.cpp/common/chat-peg-parser.cpp:342-455 | so they are when every value is balanced |
| `ToolArguments.ValueCallIsPrinted` | llama.cpp/common/chat-peg-parser.cpp:342-455 | and when every literal argument is the text of a Python or JSON value, spaced in any way |
| `ToolArguments.ArgumentIsPrinted` | llama.cpp/common/chat-peg-parser.cpp:384-431 | open, name, value and close of one argument append exactly its key and value |
| `ToolArguments.NamePositionIsIrrelevantExactly` | llama.cpp/common/chat-peg-parser.cpp:358-382 | for any describing nodes, the mapper is in the same state whether the name of the call comes before or after them, if and only if no value came before the first key or raw object, or a later raw object replaced it |
| `ToolArguments.CloseBalances` | llama.cpp/common/chat-peg-parser.cpp:444-447 | a close adds the missing braces and nothing else; afterwards the brace depth is not positive if and only if it was not positive before or the text does not end inside a string |
| `MiniMax.CompletePrintIsExact` | llama.cpp/common/chat-peg-parser.cpp:1096-1196 | the print of a complete tree is the JSON text of its value, with commas and closers at every depth |
| `MiniMax.FinishedCallIsExact` | llama.cpp/common/chat-peg-parser.cpp:1135-1232 | a finished call is read with its name and with the JSON text of the object of its arguments |
| `MiniMax.FinishedReplyIsExact` | llama.cpp/common/chat-peg-parser.cpp:1198-1232 | the calls read from a list of visited nodes are those of its tool nodes, in order, each with the JSON text of its arguments |
| `ParsePaths.ParseIsRead` | llama.cpp/common/chat-peg-parser.cpp:1198-1232 | for every parse: the message has exactly the reasoning, content and calls of the outermost nodes with these tags, in preorder, whatever wrapper nodes they stand below |
| `ParsePaths.FinishedParseIsExact` | llama.cpp/common/chat-peg-parser.cpp:1198-1232 | for a finished parse its calls have the JSON texts of their arguments |
| `ParsePaths.WrappersAreSeenThrough` | llama.cpp/common/chat-peg-parser.cpp:1229-1231 | an untagged node says what its children say, and a forest what its trees say, one after the other |
| `ParsePaths.ListExists` | llama.cpp/common/chat-peg-parser.cpp:1198-1232 | every parse has a list of the paths to its outermost nodes in preorder |
| `ParsePaths.SortedIsUnique` | llama.cpp/common/chat-peg-parser.cpp:1198-1232 | there is only one such list |
| `ParsePaths.CollectFindsListed` | llama.cpp/common/chat-peg-parser.cpp:1096-1108 | the entries of a container are its outermost nodes with that tag, in preorder, at any depth |
| `ParsePaths.TagIsFoundFirst` | llama.cpp/common/peg-parser.cpp:137-151 | the node found for a tag is the first one in preorder within three levels, and there is none if none is found |
| `ParsePaths.ValueIsFirst` | llama.cpp/common/chat-peg-parser.cpp:1110-1121 | the value of an entry is its first child that is one |
| `MiniMax.TreesRepresent` | llama.cpp/common/chat-peg-parser.cpp:1096-1121 | every JSON value has such a tree, found through nodes nested at any depth |
| `MiniMax.CallTreesRepresent` | llama.cpp/common/chat-peg-parser.cpp:1096-1121 | every name with well-formed arguments has such a tool node |
| `MiniMax.CutValuePrintsPrefix` | llama.cpp/common/chat-peg-parser.cpp:1123-1196 | the print of a truncated tree, open or closed, is a prefix of the print of the whole |
| `MiniMax.CutContainerPrintsPrefix` | llama.cpp/common/chat-peg-parser.cpp:1135-1173 | the same for the members or items of a container |
| `MiniMax.CutParseGrows` | llama.cpp/common/chat-peg-parser.cpp:1198-1232 | the message read from a truncated parse grows into the message of the whole parse |
| `Permute.Permute` | llama.cpp/common/chat-peg-parser.cpp:239-273 | for two to six parsers exactly the orderings of all parsers are accepted, above six only the given order, and there are 2^n - 1 rules |
| `Permute.Builder.RemainingOf` | llama.cpp/common/chat-peg-parser.cpp:252-271 | the memoised recursion adds a rule for exactly the non-empty subsets it had not seen, each with the right alternatives |
| `Permute.RuleDerivesOrderings` | llama.cpp/common/chat-peg-parser.cpp:252-271 | the rule of a set derives a word if and only if the word uses each parser of the set exactly once |
| `Permute.SequenceDerivesGivenOrder` | llama.cpp/common/chat-peg-parser.cpp:245-247 | the plain sequence derives only the given order |
| `Permute.MemoCount` | llama.cpp/common/chat-peg-parser.cpp:249-271 | a complete memo has one rule for each non-empty subset, 2^n - 1 in all |
| `DiffSplit.SegmentizeMarkers` | llama.cpp/common/chat-auto-parser-helpers.cpp:266-296 | the loop cuts the text into the segments of the specification |
| `DiffSplit.SegmentsAreLossless` | llama.cpp/common/chat-auto-parser-helpers.cpp:266-296 | the segments always concatenate to the text |
| `DiffSplit.SegmentsAreShaped` | llama.cpp/common/chat-auto-parser-helpers.cpp:266-296 | every segment is a whole marker or plain text, and none is empty |
| `DiffSplit.SegmentsAreWhole` | llama.cpp/common/chat-auto-parser-helpers.cpp:266-296 | plain text is not cut up: two texts stand side by side only if the second is a marker that is never closed |
| `DiffSplit.CalculateDiffSplit` | llama.cpp/common/chat-auto-parser-helpers.cpp:84-204 | the whole comparison, with its loop, flags and corrections |
| `DiffSplit.PlainTextsAreSplit` | llama.cpp/common/chat-auto-parser-helpers.cpp:84-204 | for texts without markers: prefix and suffix are common, and the parts between them have neither a first nor a last character in common, unless one of them is empty |
| `DiffSplit.PartsShareNoEnds` | llama.cpp/common/chat-auto-parser-helpers.cpp:172-180 | for all texts: where plain text stands at the front (back) of both remainders, the two parts of the answer do not begin (end) with the same character |
| `DiffSplit.EqualSegmentsAreTaken` | llama.cpp/common/chat-auto-parser-helpers.cpp:111-136 | the segments taken off at the ends are equal on both sides and make up prefix and suffix, and none that is equal is left there while both sides hold more than one |
| `DiffSplit.SingleIsTaken` | llama.cpp/common/chat-auto-parser-helpers.cpp:138-162 | a segment left alone on one side is taken off if it equals the last or else the first of the other side; two that are left alone, if they are equal markers |
| `DiffSplit.ShrinkLoop` | llama.cpp/common/chat-auto-parser-helpers.cpp:111-136 | the loop over four iterators takes equal segments off both ends |
| `DiffSplit.MeasureCommonPrefix` | llama.cpp/common/chat-auto-parser-helpers.cpp:66-73 | the length found is that of the common prefix |
| `DiffSplit.MeasureCommonSuffix` | llama.cpp/common/chat-auto-parser-helpers.cpp:75-82 | the length found is that of the common suffix |
| `DiffSplit.CommonSuffixIsLongest` | llama.cpp/common/chat-auto-parser-helpers.cpp:75-82 | the common suffix is common, and the characters before it differ |
| `DiffSplit.DiffIsLosslessExactly` | llama.cpp/common/chat-auto-parser-helpers.cpp:84-204 | prefix, left or right part and suffix rebuild both texts if and only if neither text repeats inside the other. A text of 2k segments, k > 0, repeats inside a longer one if its halves stand at the ends of that one and the first segment of its second half stands first or last between them (a marker, if it stands there alone). The exception is a left text that repeats inside the right one with more than one segment between its halves and is a prefix of it |
| `DiffSplit.UsedUpAloneExactly` | llama.cpp/common/chat-auto-parser-helpers.cpp:111-136 | the loop uses up one side alone if and only if the two halves of that side stand at the ends of the longer side |
| `DiffSplit.DifferingEndsAreLossless` | llama.cpp/common/chat-auto-parser-helpers.cpp:84-204 | texts that differ in their first or their last segment are always rebuilt |
| `DiffSplit.DoubledMarkerIsLost` | llama.cpp/common/chat-auto-parser-helpers.cpp:84-204 | "<a><b>" against "<a><b><b>": the condition fails and the second marker is lost |
| `LruWorkset.LruHitRate` | blobpager/tools/workset.py:55-71 | the simulation with an ordered cache gives the share of hits as defined by reuse distance |
| `LruWorkset.AccessKeepsMostRecent` | blobpager/tools/workset.py:61-70 | after every access the cache is the most recently used experts, in order |
| `LruWorkset.HitIsMembership` | blobpager/tools/workset.py:64-65 | an access hits if and only if the expert was used before, with fewer than the budget of distinct experts since |
| `LruWorkset.RecencyIsReuseDistance` | blobpager/tools/workset.py:61-70 | the place of an expert in recency order is the number of distinct experts used since |
| `LruWorkset.CachesAreNested` | blobpager/tools/workset.py:61-70 | the cache holds min(budget, distinct so far) experts, and a smaller cache is the end of a larger one |
| `LruWorkset.RateIsMonotone` | blobpager/tools/workset.py:55-71 | the rate never falls when the budget grows, also across the shortcut |
| `LruWorkset.ShortcutIgnoresColdMisses` | blobpager/tools/workset.py:58-60 | with a budget that covers all experts a simulation would miss once for each distinct expert, which the shortcut does not charge |
| `FrequencyPins.MostCommonIsTop` | blobpager/tools/workset.py:81-82 | the pins chosen are used at least as often as every expert left out, and as many as can be |
| `FrequencyPins.FrequencyPinsAreOptimal` | blobpager/tools/workset.py:74-82 | no set of as many pins has a higher hit rate on the stream than its own frequency pins |
| `FrequencyPins.PinRateIsMonotone` | blobpager/tools/workset.py:74-82 | the rate of the frequency pins does not fall as the budget grows |
| `LongestCommonSubstring.StringLcs` | llama.cpp/common/common.cpp:470-489 | the result occurs in both strings, nothing longer does, and in the first string nothing as long ends earlier |
| `LongestCommonSubstring.FillRow` | llama.cpp/common/common.cpp:477-487 | one row of the table, with the best entry so far |
| `LongestCommonSubstring.CommonSuffixIsLongest` | llama.cpp/common/common.cpp:477-480 | the table entry is the length of the longest common suffix of the two prefixes |
| `LongestCommonSubstring.CommonPartsAreBounded` | llama.cpp/common/common.cpp:470-489 | every text that occurs in both strings is at most as long as the result |
| `Utf8.EncodedOneDecodes` | llama.cpp/common/console.cpp:365-409 | decoding at the start of an encoded code point gives the code point and its length, whatever surrounds it |
| `Utf8.DecodeInvertsEncode` | llama.cpp/common/console.cpp:365-430 | decoding an encoded text gives back its code points |
| `Utf8.EncodeIsInjective` | llama.cpp/common/console.cpp:411-430 | different texts have different encodings |
| `Utf8.TruncatedIsMalformed` | llama.cpp/common/console.cpp:1009-1010 | a line that ends in only the first bytes of a code point is not well-formed |
| `Utf8.KnownEncodings` | llama.cpp/common/console.cpp:411-430 | the encodings of a code point of each size |
| `Utf8.MalformedIsReplaced` | llama.cpp/common/console.cpp:365-409 | a byte that begins no code point, or that the end of the line cuts off, is replaced on its own |
| `Utf8.PrevCharPos` | llama.cpp/common/console.cpp:432-439 | stepping back from the start of a code point finds the start of the one before |
| `Utf8.NextCharPos` | llama.cpp/common/console.cpp:441-454 | stepping forward finds the start of the next code point |
| `LineHistory.History.AddLine` | llama.cpp/common/console.cpp:703-712 | a line is added unless it is empty or the last one, and viewing ends; the history stays one of code points if and only if the line is well-formed |
| `LineEditor.AddedLineIsShownFirst` | llama.cpp/common/console.cpp:699-779 | a line that is added is the first that the history shows, no line is remembered twice in a row, and older lines stay |
| `LineHistory.History.PrevLine` | llama.cpp/common/console.cpp:714-725 | the line before, if there is one |
| `LineHistory.History.NextLine` | llama.cpp/common/console.cpp:727-738 | the line after, or the line that was being written, and then viewing ends |
| `LineHistory.History.Begin` | llama.cpp/common/console.cpp:740-742 | viewing starts behind the last entry and keeps the line being written |
| `LineEditor.Editor.DeleteAtCursor` | llama.cpp/common/console.cpp:456-482 | the code point at the cursor goes, in bytes and widths, and the column is unchanged |
| `LineEditor.Editor.ClearCurrentLine` | llama.cpp/common/console.cpp:484-494 | the column is put back to the start of the line |
| `LineEditor.Editor.SetLineContents` | llama.cpp/common/console.cpp:496-527 | the line becomes the given text, with one width a code point and the cursor at the last code point start within the given byte position |
| `LineEditor.Editor.MoveToLineStart` | llama.cpp/common/console.cpp:529-537 | the cursor and the column go to the start |
| `LineEditor.Editor.MoveToLineEnd` | llama.cpp/common/console.cpp:539-547 | the cursor and the column go to the end |
| `LineEditor.Editor.MoveWordLeft` | llama.cpp/common/console.cpp:581-617 | the two loops skip spaces, then a word, and the column follows |
| `LineEditor.Editor.MoveWordRight` | llama.cpp/common/console.cpp:619-664 | the loops skip spaces, a word and spaces, and the column follows |
| `LineEditor.Editor.DeleteBackwards` | llama.cpp/common/console.cpp:929-957 | the code point before the cursor goes, the tail is redrawn, and the column follows |
| `LineEditor.Editor.InsertChar` | llama.cpp/common/console.cpp:958-996 | the code point is inserted at the cursor, the tail is redrawn, and the column follows |
| `LineEditor.Editor.HistoryPrev` | llama.cpp/common/console.cpp:770-779 | the earlier line replaces the text |
| `LineEditor.Editor.HistoryNext` | llama.cpp/common/console.cpp:780-788 | the later line, or the kept one, replaces the text |
| `LineEditor.Editor.HandleKey` | llama.cpp/common/console.cpp:790-1002 | one turn of the key loop is one turn of the editor on a list of code points; the line stays its encoding, with one width a code point, the byte cursor at the code point cursor and the column at the sum of widths before it |
| `LineEditor.Editor.Type` | llama.cpp/common/console.cpp:763-1002 | the same over every sequence of keys |
| `LineEditor.Editor.FinishLine` | llama.cpp/common/console.cpp:1004-1043 | for every mark, accurate or stale: what is handed over, the lines that the history keeps, and that the history stays one of code points if and only if input ended or the handed-over line is well-formed; for an accurate mark, that input goes on if and only if the text ends in a backslash in single-line mode, or in neither mark in multi-line mode before the end of the stream |
| `LineEditor.InputGoesOnExactly` | llama.cpp/common/console.cpp:1004-1043 | after any keys without completions, input goes on under exactly that condition |
| `LineEditor.EnterMeans` | llama.cpp/common/console.cpp:1004-1043 | what is handed over, and whether input goes on, for a line by its end: a backslash becomes a line break, a slash goes, other text stays |
| `LineEditor.FinishedIsText` | llama.cpp/common/console.cpp:1004-1043 | with an accurate mark the line handed over is the text without its mark, or with a line break |
| `LineEditor.BackspaceUndoesInsert` | llama.cpp/common/console.cpp:929-996 | backspace undoes a typed character, and is left followed by delete |
| `LineEditor.WordLeftStopsAtWord` | llama.cpp/common/console.cpp:581-617 | a word move passes spaces, then one whole word, and stops at its start |
| `LineEditor.WordRightStopsBehindWord` | llama.cpp/common/console.cpp:619-664 | a word move to the right passes spaces, one whole word and the spaces behind it |
| `LineEditor.TypingInserts` | llama.cpp/common/console.cpp:958-996 | typing a text puts it at the cursor, wherever that is, and the cursor behind it |
| `LineEditor.MovesMean` | llama.cpp/common/console.cpp:529-547 | what is typed after Home stands in front, after End behind, and a step right takes a step left back |
| `LineEditor.StartWithinIsLast` | llama.cpp/common/console.cpp:496-527 | the cursor of a completion is the last start of a code point within the given bytes |
| `LineEditor.HistoryRoundTrip` | llama.cpp/common/console.cpp:699-788 | as many steps down as up give back the line being written and leave the history as it was |
| `LineEditor.MarkIsAccurate` | llama.cpp/common/console.cpp:998-1001 | after any key but a completion the mark says exactly whether the line ends in a backslash or slash |
| `LineEditor.MarkTellsTypedLine` | llama.cpp/common/console.cpp:797-1001 | after any keys the mark says whether the line ended in a backslash or slash after the last key that was no completion |
| `LineEditor.EnterIsRightExactly` | llama.cpp/common/console.cpp:1004-1043 | Enter does what it does with an accurate mark if and only if the mark is accurate, and hands over well-formed text if and only if it drops nothing or a code point of one byte |
| `LineEditor.EnterAfterKeysExactly` | llama.cpp/common/console.cpp:797-1043 | after any keys Enter does that if and only if the line ends in a mark now just as it did after the last key that was no completion |
| `LineEditor.CompletionLosesLastByte` | llama.cpp/common/console.cpp:797-808 | whenever a marked line is completed to a longer one that does not end in a mark, Enter hands over the completed line without its last byte |
| `LineEditor.CompletedLineIsCutOff` | llama.cpp/common/console.cpp:797-808 | the same from an empty line, for every typed text that ends in a slash or backslash |
| `LineEditor.CompletedPathIsCutOff` | llama.cpp/tools/cli/cli-ui.h:28-100 | "/read src/" completed to a file named é: Enter hands over half of that letter, which is not UTF-8 |
| `Base64.Encode` | llama.cpp/common/base64.hpp:80-144 | the loop over groups of three bytes |
| `Base64.Decode` | llama.cpp/common/base64.hpp:200-244 | the loop over characters, in both behaviours and all alphabets, with its errors |
| `Base64.DecodeInPlace` | llama.cpp/common/base64.hpp:294-315 | decoding over the source gives the same bytes or the same error as decoding elsewhere, and leaves what is behind the result alone |
| `Base64.DecodeInvertsEncode` | llama.cpp/common/base64.hpp:80-244 | decoding gives back every byte string, in the alphabet of the encoding or detecting it, in both behaviours |
| `Base64.EncodedSize` | llama.cpp/common/base64.hpp:338-341 | the encoding has exactly the required size |
| `Base64.DecodedSize` | llama.cpp/common/base64.hpp:324-327 | the decoding has the whole bytes of its characters, never more than the maximum size |
| `Base64.AcceptsExactly` | llama.cpp/common/base64.hpp:200-244 | text is accepted if and only if everything before the first padding is in the alphabet and (unless loose) only padding follows |
| `Base64.DecodesWholeBytes` | llama.cpp/common/base64.hpp:212-229 | read as numbers, the result is the digits without the bits left over |
| `Base64.AutoIsEitherAlphabet` | llama.cpp/common/base64.hpp:344-389 | detection accepts exactly what one of the fixed alphabets accepts, with the same bytes |
| `Base64.KnownVectors` | llama.cpp/common/base64.hpp:80-144 | test vectors of RFC 4648 for each length of the last group |
| `Base64.AlphabetsDiffer` | llama.cpp/common/base64.hpp:80-144 | the two symbols in which the alphabets differ |
| `Glob.GlobMatch` | llama.cpp/common/common.cpp:815-817 | sound and complete: the answer is yes if and only if the text splits into one piece for each item of the pattern |
| `Glob.GlobMatchAt` | llama.cpp/common/common.cpp:769-813 | the recursion on two positions terminates and decides that relation |
| `Glob.MatchSpan` | llama.cpp/common/common.cpp:779-785 | the loop for a star |
| `Glob.MatchBracket` | llama.cpp/common/common.cpp:789-808 | a class if it is closed, else the bracket itself |
| `Glob.GlobClassMatch` | llama.cpp/common/common.cpp:728-766 | negation, a leading bracket or dash, single characters and ranges |
| `Glob.SpanStep` | llama.cpp/common/common.cpp:774-785 | a span takes nothing, or one character it may take and goes on |
| `Glob.PlainMatchesItself` | llama.cpp/common/common.cpp:769-813 | a pattern without special characters matches itself only |
| `Glob.OneCharacterMeans` | llama.cpp/common/common.cpp:769-813 | for every rest of the pattern: a question mark takes any one character but a slash, a character without a special meaning takes itself |
| `Glob.StarsMean` | llama.cpp/common/common.cpp:774-785 | for every rest: two stars take any text, one star any text without a slash |
| `Glob.ClassMeans` | llama.cpp/common/common.cpp:728-766 | for every rest: a class of one range or one character, and its negation |
| `Glob.CStrExactly` | llama.cpp/common/common.cpp:815-817 | pattern and text end at their first null character |
| `Glob.SlashesAreSpeltOut` | llama.cpp/common/common.cpp:768-813 | without a double star or a class, every slash of the text is one that the pattern spells out |
| `Glob.BracketAfterNegationCloses` | llama.cpp/common/common.cpp:736-742 | for every rest of the pattern and every text: `[!]` followed by the rest is a class that takes any one character, followed by what the rest means |
| `CsvRow.ParseCsvRow` | llama.cpp/common/arg.cpp:1347-1389 | the loop computes the fields of the row |
| `CsvRow.ParseInvertsWrite` | llama.cpp/common/arg.cpp:1347-1389 | fields written in quotes or bare, in any mixture, and joined by commas are read back |
| `CsvRow.QuotedRowRoundTrip` | llama.cpp/common/arg.cpp:1347-1389 | quoting every field of any non-empty list works |
| `CsvRow.BareExactly` | llama.cpp/common/arg.cpp:1347-1389 | a text is a row of just itself if and only if it has no comma and does not begin with a quote |
| `CsvRow.LooseQuotes` | llama.cpp/common/arg.cpp:1347-1389 | text behind a closing quote still belongs to the field, and a quote that is never closed ends with the row |
| `GgufValues.File.RdVal` | blobpager/tools/gguf_layout.py:30-59 | the recursive reader moves the position and returns the whole value, or fails |
| `GgufValues.File.ReadValue` | blobpager/tools/gguf_meta.py:53-74 | the abbreviating reader, with its loops |
| `GgufValues.File.SkipValue` | blobpager/tools/gguf_meta.py:23-50 | the skipping reader, which does not notice a cut-off number |
| `GgufValues.File.ReadString` | blobpager/tools/gguf_meta.py:18-20 | a length and as many bytes as the file still has |
| `GgufValues.SkipFollowsRead` | blobpager/tools/gguf_meta.py:23-50 | on every file: where reading succeeds, skipping stops at the same place |
| `GgufValues.SummaryFollowsRead` | blobpager/tools/gguf_meta.py:53-74 | on every file: where reading succeeds, the abbreviating reader stops at the same place with the abbreviation of the same value, if and only if the value is not an empty array of an unknown type |
| `GgufValues.ValueReadsBack` | blobpager/tools/gguf_layout.py:30-59 | every well-formed value is read back, wherever it stands and whatever follows; its numbers are packed by the sizes of the writer (llama.cpp/gguf-py/gguf/gguf_writer.py, lines 72 to 84) |
| `GgufValues.ReadersAgree` | blobpager/tools/gguf_layout.py:30-59 | on every well-formed value the three readers stop just behind its encoding, with the value, its abbreviation and nothing |
| `GgufValues.CutOffNumber` | blobpager/tools/gguf_meta.py:23-50 | a number that the end of the file cuts off: reading fails, skipping stops there without noticing |
| `GgufValues.CutOffString` | blobpager/tools/gguf_meta.py:18-20 | a string that the end of the file cuts off is as much as there is |
| `GgufValues.UnknownTypesFail` | blobpager/tools/gguf_layout.py:30-59 | no reader takes a type that the format does not have |
| `LittleEndian.LastBytesCountMost` | blobpager/tools/gguf_layout.py:30-59 | zeros behind a number change nothing, a zero in front makes it 256 times as much |
| `LittleEndian.SignedIsComplement` | blobpager/tools/gguf_layout.py:30-59 | a signed number is the unsigned one or less than it by the whole range, and within half the range of zero |
| `RowBytes.RowBytesExactly` | blobpager/tools/gguf_layout.py:16-64 | for every row of whole stored blocks: the inspector knows the right size if and only if the type is none of Q4_1, Q5_1 and Q8_K, and for IQ4_NL the row has 704, 1408 or 2112 values |
| `GgmlFile.GgmlModel.ValidateHeader` | llama.cpp/convert_llama_ggml_to_gguf.py:145-166 | the format, version and size of the header, or the error |
| `GgmlFile.GgmlModel.Load` | llama.cpp/convert_llama_ggml_to_gguf.py:180-200 | the fields are those of the whole-file specification, or its error |
| `GgmlFile.LoadVocab` | llama.cpp/convert_llama_ggml_to_gguf.py:84-98 | the loop over vocabulary items |
| `GgmlFile.LoadTensor` | llama.cpp/convert_llama_ggml_to_gguf.py:110-131 | one tensor entry, with padding and a byte count that wraps at 64 bits |
| `GgmlFile.LoadTensors` | llama.cpp/convert_llama_ggml_to_gguf.py:190-194 | the tensor loop and its map of names |
| `GgmlFile.MapLeadsToLast` | llama.cpp/convert_llama_ggml_to_gguf.py:192-193 | a name leads to the last tensor of that name |
| `GgmlFile.LoadInvertsSerialize` | llama.cpp/convert_llama_ggml_to_gguf.py:180-200 | for every accepted format and version, loading a written file gives back its contents and stops at its end; the feed-forward width is the second size of the last tensor written with that name |
| `GgmlFile.FeedForwardName` | llama.cpp/convert_llama_ggml_to_gguf.py:53-57 | the name of that tensor |
| `GgmlFile.ConvertibleByAge` | llama.cpp/convert_llama_ggml_to_gguf.py:168-178 | which types can be converted, by the age of the file |
| `GgmlFile.EntryIsRefusedExactly` | llama.cpp/convert_llama_ggml_to_gguf.py:110-121 | a tensor entry is loaded if and only if it has at most four sizes that can be read, a name shorter than 4096 bytes and a known type |
| `GgmlFile.WordIsRefusedExactly` | llama.cpp/convert_llama_ggml_to_gguf.py:84-98 | a word of the oldest format is loaded if and only if its length can be read and is below 4096 |
| `GgmlFile.FileTypesExactly` | llama.cpp/convert_llama_ggml_to_gguf.py:59-82 | the types that a file can say it is of |
| `GgmlFile.VersionsExactly` | llama.cpp/convert_llama_ggml_to_gguf.py:145-166 | the versions, sizes and magic numbers of accepted headers |
| `GgmlFile.BlockSizesByFields` | llama.cpp/gguf-py/gguf/constants.py:5871-5907 | the size of a block of each type is that of its fields together |
| `GgmlFile.TensorLoopEnds` | llama.cpp/convert_llama_ggml_to_gguf.py:190-194 | if every entry that is met has a size that is not negative and an end below 2^63, the loop ends within as many rounds as the file has bytes |
| `GgmlFile.WindowsAreOrdered` | llama.cpp/convert_llama_ggml_to_gguf.py:110-131 | for every finished loop: every data window starts behind the entry before it, and the offset returned is the end of the last window, if and only if every entry has such a size and end; padded windows start on a multiple of 32 |
| `GgmlFile.WindowsAreDisjoint` | llama.cpp/convert_llama_ggml_to_gguf.py:110-131 | no two windows overlap |
| `GgmlFile.LoopNeverEndsExactly` | llama.cpp/convert_llama_ggml_to_gguf.py:190-194 | the loop runs for ever if and only if it comes to one offset twice, which is decided after as many rounds as there are offsets |
| `GgmlFile.WrappedSizeNeverEnds` | llama.cpp/convert_llama_ggml_to_gguf.py:180-200 | loading an old file of 68 bytes with one entry, the product of whose sizes wraps to minus the size of the entry, never ends |
| `FactoredTensor.GetIndexCommutes` | llama.cpp/convert_lora_to_gguf.py:68-72 | indexing both factors with an integer indexes the product |
| `FactoredTensor.GetSliceCommutes` | llama.cpp/convert_lora_to_gguf.py:73-77 | slicing the factors slices the product, if A has a matrix for each of B, or the slice takes the only one of A, or none of B is left |
| `FactoredTensor.GetSliceFitsExactly` | llama.cpp/convert_lora_to_gguf.py:73-77 | the sliced factors fit if and only if that condition holds |
| `FactoredTensor.GetTupleCommutes` | llama.cpp/convert_lora_to_gguf.py:78-112 | indexing with a tuple indexes the product, if slices keep all matrices on the axes where A has several |
| `FactoredTensor.GetTupleBreaks` | llama.cpp/convert_lora_to_gguf.py:98-112 | otherwise the factors no longer fit: the open question of line 98 answered exactly |
| `FactoredTensor.GetTupleExactly` | llama.cpp/convert_lora_to_gguf.py:78-112 | for every tuple of integers and slices that the plain tensor takes: the factors fit and give what the plain tensor gives if and only if the last two entries are slices and the slices before them keep all matrices on the axes where A has several |
| `FactoredTensor.EllipsisIsRightForMatrices` | llama.cpp/convert_lora_to_gguf.py:82-95 | the expansion of `[..., s]` means the slice of the last axis for all tensors of a rank if and only if the rank is two or the slice takes everything of an axis of any size |
| `FactoredTensor.EllipsisExactly` | llama.cpp/convert_lora_to_gguf.py:82-95 | for a given tensor: if and only if it is a matrix, or the slice leaves the second and the last axis their size |
| `FactoredTensor.GetEllipsisCommutesExactly` | llama.cpp/convert_lora_to_gguf.py:78-112 | indexing the factors with `[..., s]` gives factors that fit and whose product is the slice of the last axis of the product, if and only if it is a matrix or the slice leaves those axes of the product their size |
| `FactoredTensor.SplitCommutes` | llama.cpp/convert_lora_to_gguf.py:190-206 | each part of a split along any axis is that part of the product |
| `FactoredTensor.ProductWithIdentity` | llama.cpp/convert_lora_to_gguf.py:38-56 | with the identity for A, the product is B |
| `Tensor.PicksExactly` | llama.cpp/convert_lora_to_gguf.py:73-77 | a slice takes every step-th place from its start up to its stop; negative bounds count from the end, others are cut off |
| `FactoredReshape.ReshapeCommutes` | llama.cpp/convert_lora_to_gguf.py:136-160 | reshaping the factors reshapes the product |
| `FactoredReshape.SameElements` | llama.cpp/convert_lora_to_gguf.py:136-160 | with a rank, the product can be reshaped whenever the factors can |
| `FactoredReshape.ExpandFillsIn` | llama.cpp/convert_lora_to_gguf.py:144-149 | a single -1 becomes the size with which the elements are used up, and the other sizes stay |
| `FactoredRuns.ReshapeIsSupportedExactly` | llama.cpp/convert_lora_to_gguf.py:136-160 | of the shapes that the factors can take, those that count as supported are the ones that the product can take: all of them, if the rank is positive |
| `FactoredPermute.PermuteCommutes` | llama.cpp/convert_lora_to_gguf.py:168-179 | permuting the axes before the last, or transposing a matrix, does the same to the product |
| `Tensor.PermuteMeans` | llama.cpp/convert_lora_to_gguf.py:168-179 | the k-th axis of a permuted tensor is the axis dims[k], for its shape and for every index |
| `FactoredRuns.TransposeMeans` | llama.cpp/convert_lora_to_gguf.py:181-188 | a transposed plain tensor has the two sizes exchanged, and at every index the value where the two indices are exchanged; axes may be counted from the end |
| `FactoredRuns.GetTransposeMeans` | llama.cpp/convert_lora_to_gguf.py:181-188 | and so has the product of the transposed factors |
| `FactoredPermute.ScaleCommutes` | llama.cpp/convert_lora_to_gguf.py:211-216 | scaling the output side scales the product, with a number or a factor that may enlarge axes of size one |
| `Tensor.ScaleMeans` | llama.cpp/convert_lora_to_gguf.py:211-216 | a factor meets the tensor from the last axis on, and an axis of size one is read at its only place |
| `FactoredRuns.StackCommutes` | llama.cpp/convert_lora_to_gguf.py:234-242 | stacking the factors stacks the products |
| `FactoredRuns.CatMatricesCommutes` | llama.cpp/convert_lora_to_gguf.py:243-257 | matrices with one A: the rows of the first product, then those of the second |
| `FactoredRuns.CatBatchesCommutes` | llama.cpp/convert_lora_to_gguf.py:248-252 | joining both factors along a leading axis joins the products |
| `FactoredTrees.CatAllCommutes` | llama.cpp/convert_lora_to_gguf.py:243-257 | joining a list of any length joins the products, if the tensors are matrices or A has a matrix for each of B |
| `FactoredTrees.CatAllFitsExactly` | llama.cpp/convert_lora_to_gguf.py:243-257 | when no tensor is empty, the joined factors fit if and only if that condition holds or there is only one tensor |
| `FactoredTrees.CatAllFitsByTotals` | llama.cpp/convert_lora_to_gguf.py:243-257 | for every list that can be joined, empty tensors included: the joined factors fit if and only if they are matrices, or the leading sizes of A add up to those of B or to one |
| `FactoredTrees.JoinedWithEmptyIsWrong` | llama.cpp/convert_lora_to_gguf.py:243-257 | two tensors, the first of them empty, whose joined factors fit and have the wrong product |
| `FactoredRuns.StepCommutes` | llama.cpp/convert_lora_to_gguf.py:58-216 | every supported operation on the factors is that operation on the product |
| `FactoredRuns.RunCommutes` | llama.cpp/convert_lora_to_gguf.py:58-216 | the same for every run of supported operations, starting from any factors |
| `FactoredTrees.EvalCommutes` | llama.cpp/convert_lora_to_gguf.py:58-257 | the same for every expression in which operations, stacks and joins are nested in any way |

## Left out

- The grammar engine, the arena of syntax trees, the template runtime and the JSON library: node events, finite trees
  and a function that escapes one character take their place. The error that the JSON library raises for invalid UTF-8
  is not modelled; strings are sequences of characters.
- The mappers of other formats (Gemma 4), the generic tag mapper, the analysis of templates and the construction of tool
  grammars; `common_chat_msg_delimiters::split`.
- Messages that shrink because a stop word is erased: runs are those of the tool grammars, which only grow.
- Streaming.StreamReachesFinalMessage: runs are legal for the grammar automaton of `Streaming.Legal` and cut as
  `Streaming.IsCutOf` says; both look only at nodes that do something.
- Permute.Permute: a bit mask is the set of its bits, and rule names are the sets themselves.
- LineEditor.Editor.HandleKey: the keys are those left after escape sequences have been read; reading raw sequences, the
  Windows branches, real terminal output and lines wider than the terminal are left out, completions are well-formed
  UTF-8, and code points are at most 0x10FFFF.
- LineEditor.Editor.Type: a completion to the empty line while the mark is set is excluded (`LineEditor.Acceptable`);
  the source would then read the last byte of an empty string. The repository's own callback offers no such completion.
- LineEditor.Editor.InsertChar: the width of a code point is a function of it; a tab moves the terminal to the next tab
  stop, so its width depends on the column, and the column is right only for lines without tabs.
- LineEditor.Editor.FinishLine: of what is typed after a line that is not well-formed has entered the history, the model
  says nothing.
- LineHistory.History.NextLine: the "not viewing" sentinel is an absent value.
- FrequencyPins.MostCommonIsTop: ties between experts are broken by first use, as the counter of the standard library
  does.
- Glob.GlobClassMatch: characters compare by code; a platform whose characters are signed orders bytes above 127
  otherwise.
- GgufValues.File.RdVal: floats and strings stay bytes, since conversion is the standard library's, and a read of more
  bytes than an index can count is cut off like any other instead of raising an error.
- GgmlFile.GgmlModel.Load: the tensor loop is given a number of rounds, because it need not end; with as many rounds as
  the file has bytes it always ends when sizes can be counted (`GgmlFile.LoopNeverEndsExactly` says when it does not).
  Scores stay bytes. The objects that the original fills and then stores are values here.
- GgmlFile.WindowsAreOrdered: files are shorter than 2^63 - 8192 bytes.
- GgmlFile.LoadTensor: the sum of the aligned offset and the byte count wraps at 64 bits; the alignment itself is exact.
- FactoredTensor.GetTupleCommutes: the last two entries are slices; `FactoredTensor.GetTupleExactly` shows that integers
  there are never right. Index tensors are left out.
- FactoredTensor.EllipsisIsRightForMatrices: of the tuples with an ellipsis only `[..., s]`; other tuples are taken as
  given for every axis.
- FactoredTrees.CatAllFitsExactly: no tensor is empty; `FactoredTrees.CatAllFitsByTotals` has no such condition.
- FactoredRuns.RunCommutes: reshaping factors of rank zero to a shape with another number of elements than the product
  has is not supported here, though the source lets it pass; the same holds for `FactoredRuns.StepCommutes`.
- FactoredTrees.EvalCommutes: expressions in which an operation leaves factors that do not fit have no value here; the
  constructor accepts some of them all the same, since it compares only the ranks.
- FactoredReshape.ReshapeCommutes: conversions between number types and rounding are left out; values are real numbers.
- The rest of `common.cpp` (escape processing, splitting and joining, processor masks), of `arg.cpp` and of the
  converters: easier members of the same kind, or calls into code outside the repository.
- The executor of blobpager (`llama-blobpager.cpp`) and the model code of llama.cpp.
