# Verified models of FreeSWITCH's hardest data code

The project models four parts of FreeSWITCH and proves what they are for.

**The JSON engine** (`cJSON.c`, `cJSON_Utils.c`). Documents are values of the datatype `Json`. `Norm` gives their
meaning: an object is a map keyed by case-folded name, so two documents with equal meaning differ at most in member
order and key case. `WellFormed` says that keys are C strings and distinct ignoring case. The parser, the printer into
a growing buffer, the minifier, the list sort, the comparison, JSON Pointer, JSON Patch and JSON Merge Patch are
methods and functions over these, and the main results are round trips:

- the parser reads exactly the texts of a grammar stated apart from it, as what they spell
  (`Spelling.DocumentsExactly`);
- parsing undoes printing (`TextRoundTrip.PrintThenParse`), the formatted text is a layout of the unformatted one
  (`Layout.FormattedIsLaid`), and no text is shorter than that (`Shortest.NoneShorter`);
- minifying a document with any blanks and comments keeps its meaning (`Minify.MinifyThenParse`) and gives the
  unformatted text of a formatted one (`Minify.MinifyPrinted`);
- the buffer printer leaves exactly the pure printer's text or fails, exactly when (`PrintBuffer.Buffer.PrintValue`);
- a found pointer leads back to its node (`Pointer.PointerRoundTrip`);
- comparison is equality of meaning (`Compare.CompareZero`), and its verdict names the first difference
  (`Verdict.VerdictExactly`);
- a generated patch turns a duplicate of the first document into the second if and only if no array shrinks by more
  than one and the roots are containers of one kind, or nothing changed (`PatchRoundTrip.PatchRoundTrip`); nothing is
  written for what did not change (`DiffPlaces.EmptyExactly`, `DiffPlaces.PatchesJustified`);
- a generated merge patch does so if and only if the generator's walk does not pass a key of `to` while `from` still
  has it ahead, and no null has to be sent (`MergeExact.MergeRoundTripExactly`, and `MergePatch.MergeRoundTrip` for
  lower-case keys).

The linked lists themselves are modelled on the heap in `ChildList`: the in-place merge sort, the edits, and the stale
back link a sort leaves, with exactly the detachments that break a list because of it. A `test` patch sorts part of the
document it looks at, so `StaleHeads` carries these links through whole patch runs: they follow the law if and only if
no patch detaches a stale head and none gives the root a second empty name (`StaleHeads.RunExactly`); generated patches
do neither on a document without stale heads (`PatchInPlace.RoundTripInPlace`). `Rfc6902` has the operations of the
standard themselves and the exact condition under which one call on values agrees with them
(`Rfc6902.ConformsExactly`); `PatchInPlace.ConformingRun` is the exact condition for whole runs in place.

**The byte buffer** (`switch_buffer.c`). `ByteBuffer.Buffer` has the block, the head, the counters and the lazy
compaction; each method is proved against a function of `ByteQueue`, and there each operation is proved to be one on a
byte queue, with the capacity bound over all runs and the exact replay count.

**The channel** (`switch_channel.c`). `ChannelModel` is the state machine with one step per call; each method of
`ChannelObject` is proved to do one of those steps in place. `ChannelRuns` and `HoldRuns` prove safety over every run:
the order of states, one hangup, one cause, and balanced hold accounts; `CallRuns` proves which call state and flags a
run shows. `DeviceModel`, `DeviceTable` and `DeviceRuns` do the same for the registry of devices.

**Two pointer algorithms.** `Matches` is the completion list with its bubble sort, whose last link is unreliable until
the end. `InetText` and `InetPton` are the address parsers, with the exact language they accept.

Strings are sequences of characters without their terminator, one character for one byte. Sizes and counters are
unbounded except where the source's width matters: indices in pointers and the free space of a buffer wrap at 64 bits,
buffer sizes stop at INT_MAX. Clock readings are parameters. Every allocation succeeds.

Where the code and its own comments disagree, the model follows the code:

- `inet_pton6` says a gap in a full address is ignored; the shift zeroes what stands behind it (`InetPton.FullGapWipes`).
- `cJSON_Minify` says it skips multiline comments; a slash right behind the star that opens one ends it
  (`Minify.BlockEnds`, `Minify.ShortComment`).
- `inet_pton6` says it accepts valid addresses only; it also takes a single colon at the end
  (`InetPton.LooseEndAccepted`, `InetText.AcceptedProper`).

## Model

| member | source | states |
|---|---|---|
| `CStrings.StrCaseCmp` | src/cJSON_Utils.c:24-43 | the character walk is negative exactly if the first string, case-folded, comes before the second in the dictionary, positive exactly if it comes after it, and zero exactly if they agree ignoring case |
| `CStrings.StrCmpOrder` | src/switch_console.c:1740-1740 | `strcmp` is the dictionary order: negative exactly if the strings agree up to a place where the first has ended or has the smaller character, positive exactly the other way round, zero exactly for equal strings |
| `CStrings.StrCmpAt` | src/cJSON_Utils.c:24-43 | its value is the difference of the characters at the first place where the strings part, an ended string counting as NUL |
| `JsonValue.GetObjectItem` | src/cJSON.c:1461-1469 | stops at the first member whose key agrees ignoring case, or finds none |
| `JsonValue.FindKeyHolds` | src/cJSON.c:1461-1469 | the case-blind lookup finds what the unordered meaning of the object has for the folded key, and nothing else |
| `JsonValue.PutKeyOrder` | src/cJSON_Utils.c:487-491 | storing a member takes the first one with the name out and puts the new one last; the others keep their order |
| `ChildList.SortList` | src/cJSON_Utils.c:683-787 | relinks any list in place into the same nodes in the order of `Sorted`, every back link right but perhaps the head's, which is untouched if the head stayed and stale otherwise |
| `ChildList.SortedAscending` | src/cJSON_Utils.c:683-787 | that order is a permutation, non-decreasing by case-folded key, for every list |
| `ChildList.SortedInOrder` | src/cJSON_Utils.c:683-787 | stated apart from the comparison: a permutation in which no case-folded key comes after a later one in the dictionary |
| `ChildList.SortedTies` | src/cJSON_Utils.c:728-786 | members whose keys agree ignoring case come out in the reverse of their order; with the order of the keys this fixes the result |
| `ChildList.AlreadySorted` | src/cJSON_Utils.c:695-704 | the first loop answers whether every adjacent pair strictly ascends |
| `ChildList.Halve` | src/cJSON_Utils.c:706-723 | the two-speed walk and the cut give two complete lists, the first the longer by at most one |
| `ChildList.MergeLists` | src/cJSON_Utils.c:728-786 | merging two disjoint lists in place gives the nodes of both in the order of `Merge` |
| `ChildList.Container.SortObject` | src/cJSON_Utils.c:789-792 | sorts the children, whatever the head's `prev` was; the head keeps its `prev` if it stayed first, and a new head has a stale one |
| `ChildList.Unlink` | src/cJSON.c:1585-1615 | unlinking any node of any list, stale head or not: what is left is a complete list if and only if the node was not the head or the head's `prev` names no later node; otherwise that node is linked back to the new head |
| `ChildList.SortThenDetach` | src/cJSON_Utils.c:719-737 | the smallest instance of a broken unlinking: detaching the head of a freshly sorted two-member object leaves the remaining node linked to itself |
| `ChildList.Container.AddItemToArray` | src/cJSON.c:1517-1542 | appends the node; the list stays complete and the head's `prev` what it was |
| `ChildList.Container.InsertItemInArray` | src/cJSON.c:1654-1678 | the node is in front of the given index, at the front for a negative one, at the end past the end; the head's `prev` is passed on |
| `ChildList.Container.DetachItemFromArray` | src/cJSON.c:1585-1615 | takes exactly the node at the index out, or nothing past the end; the list stays complete if and only if the node was not the head or the head's `prev` names no later node |
| `ChildList.Container.DetachItemFromObject` | src/cJSON.c:1631-1646 | the same for the first child whose key agrees ignoring case |
| `ChildList.Container.ReplaceItemInArray` | src/cJSON.c:1680-1708 | puts the node in the place of the one at the index, whatever the head's `prev` is |
| `Compare.SortedObject` | src/cJSON_Utils.c:789-792 | sorting a well-formed object changes the order of its members and not its meaning, and makes the keys strictly ascending |
| `Compare.CompareZero` | src/cJSON_Utils.c:286-342 | the comparison is zero exactly when the documents are equal up to member order and key case |
| `Compare.CompareDocuments` | src/cJSON_Utils.c:286-342 | the recursive walk with its loops computes that comparison and leaves both documents sorted up to the first difference met, as `Touched` says |
| `Compare.TouchedMeaning` | src/cJSON_Utils.c:286-342 | the documents a comparison leaves mean what they meant and stay well formed |
| `Verdict.VerdictExactly` | src/cJSON_Utils.c:286-342 | a code other than zero is returned if and only if the documents part somewhere with exactly that fault: the type, a number, a string, the length of an array, the number of members or a name, everything compared before it being equal |
| `Verdict.TouchedAlike` | src/cJSON_Utils.c:310-336 | a comparison that finds no difference leaves both documents in the same order throughout, alike but for the case of names |
| `Pointer.PStrCaseCmp` | src/cJSON_Utils.c:46-79 | zero exactly if the key agrees, ignoring case, with the unescaped token up to the next slash |
| `Pointer.UnescapeIs` | src/cJSON_Utils.c:46-79 | section 4 of RFC 6901: the unescaped token is the one with every `~1` replaced by `/` and then every `~0` by `~`; it exists if and only if every `~` has a 0 or 1 behind it |
| `Pointer.EncodedStrLen` | src/cJSON_Utils.c:81-93 | counts exactly the length of the escaped key |
| `Pointer.EncodedStrCpy` | src/cJSON_Utils.c:95-116 | writes exactly the escaped key and a terminator, and nothing else in the block |
| `Pointer.FindPointer` | src/cJSON_Utils.c:118-172 | the search returns the path of `FindPath` |
| `Pointer.FindPathIs` | src/cJSON_Utils.c:118-172 | the search succeeds exactly for nodes of the tree and spells the tokens on the way to the node |
| `Pointer.ParseIndex` | src/cJSON_Utils.c:183-197 | reads the digits of an array token modulo the width of `size_t` |
| `Pointer.GetPointer` | src/cJSON_Utils.c:174-219 | follows a pointer token by token to the node its tokens resolve to, or fails, in trees with any keys |
| `Pointer.PointerRoundTrip` | src/cJSON_Utils.c:46-219 | sections 3 and 4 of RFC 6901: a pointer is found exactly for nodes of the tree, and following it leads back to the node if and only if no step is shadowed by an earlier equal key or an index above INT_MAX; none is in a well-formed document |
| `Patch.DecodeInPlace` | src/cJSON_Utils.c:222-240 | decodes the escapes in place: the decoded text and its terminator, nothing behind the old terminator touched |
| `Patch.DecodeIsUnescape` | src/cJSON_Utils.c:222-240 | a proper token is decoded to what a pointer reads it as |
| `Patch.AtoiIs` | src/cJSON_Utils.c:484-484 | the index of a token as `atoi` reads it: spaces, a sign, digits and anything behind them |
| `Patch.AddToArray` | src/cJSON_Utils.c:476-486 | in an array the value goes to the index, to the front for a negative one, to the end for `-` and past the end; everything else keeps its order |
| `PatchMeaning.ResolveMeaning` | src/cJSON_Utils.c:174-219 | following a pointer reaches the node whose meaning is the value the tokens denote |
| `PatchMeaning.DetachMeaning` | src/cJSON_Utils.c:242-284 | on values: detaching a path removes from the meaning exactly what the code reads the path as, nothing if that is absent, and keeps the document well formed |
| `PatchMeaning.AddMeaning` | src/cJSON_Utils.c:457-500 | on values: adding at a path changes the meaning at exactly that place: insertion, append for `-` or past the end, a member set, nothing under a scalar, the member with the empty name for a path without a slash; this and a well-formed result hold if and only if such a path does not meet an object that has an empty name already |
| `PatchMeaning.ApplyMeaning` | src/cJSON_Utils.c:344-500 | on values, for every patch, complete or not: the status and effect of the call depend on the meaning of the document alone and the tree stays well formed, if and only if the patch does not give the root a second empty name; this says what the code does, not what RFC 6902 asks for |
| `PatchMeaning.ApplyAllMeaning` | src/cJSON_Utils.c:502-530 | the outcome of a whole patch document on values, links apart, if no patch of it gives the root a second empty name |
| `Verdict.StatusExactly` | src/cJSON_Utils.c:344-500 | each status stands for one fault: 2 no operation or path, 3 an unknown operation, 4 no source named, 5 no such source, 7 no value, 9 no parent for the target once what is replaced or moved is out; 0 if there is none |
| `Verdict.TestStatus` | src/cJSON_Utils.c:384-388 | a `test` returns the verdict on the node its path leads to, and -1 without such a node or a value |
| `PatchMeaning.ThroughoutExactly` | src/cJSON_Utils.c:502-530 | on values: the law holds after every patch of a list if and only if no patch gives the root a second empty name |
| `PatchInPlace.SecondEmptyName` | src/cJSON_Utils.c:459-491 | the failing input: add with the empty path, on {"": n}, leaves two members with the empty name |
| `StaleHeads.TrackExactly` | src/cJSON_Utils.c:344-500 | in place, for every document and patch: the call writes through a stale back link if and only if it detaches the first child of a container whose head is stale, as read off its paths; otherwise status and document are those on values |
| `StaleHeads.RunExactly` | src/cJSON_Utils.c:502-530 | in place, over every well-formed document with any stale heads and every list of patches: no write goes through a stale link and the effect is that on the meaning, after every patch, if and only if no patch detaches a stale head and none gives the root a second empty name; without the latter the outcome of the whole list decides alike |
| `StaleHeads.DetachMember` | src/cJSON.c:1585-1646 | on the heap, detaching a member is the tracked step: same members, same mark; where that goes astray and the stale link leads into the list, the list is broken |
| `StaleHeads.SortMembers` | src/cJSON_Utils.c:789-792 | on the heap, sorting an object marks its head stale if and only if it was, or another member comes first |
| `StaleHeads.AppendMember` | src/cJSON.c:1517-1542 | on the heap, appending keeps the mark |
| `PatchInPlace.TouchFresh` | src/cJSON_Utils.c:286-342 | a comparison leaves a stale head in a document without one if and only if it meets an object whose first member it moves |
| `PatchInPlace.TrackFresh` | src/cJSON_Utils.c:344-500 | in a document without stale heads no patch goes astray, and only a `test` that moves a first member makes one |
| `PatchInPlace.StumblesAfterSort` | src/cJSON_Utils.c:502-530 | a run from a parsed or duplicated document goes astray only after a `test` that moved the first member of an object |
| `StaleHeads.RunIsApplyAll` | src/cJSON_Utils.c:502-530 | a run that does not go astray is the run on values |
| `PatchInPlace.Document.ApplyPatches` | src/cJSON_Utils.c:502-530 | applies the patches in order up to the first that fails and returns its status, and the document stays intact exactly if the run does not stumble; 1 and no change for a patch that is no array |
| `PatchInPlace.OrderMatters` | src/cJSON_Utils.c:383-403 | the failing input: test /x against {"a": m, "b": n}, then remove /x/a, goes astray on {"x": {"b": n, "a": m}} and applies on {"x": {"a": m, "b": n}}, which means the same |
| `Rfc6902.ConformsExactly` | src/cJSON_Utils.c:344-500 | on values, for every well-formed document and every patch, complete or not: one call agrees with section 4 of RFC 6902, errors included, if and only if `Conforms` holds, which reads only the document and the patch |
| `Rfc6902.RemoveOpExactly` | src/cJSON_Utils.c:394-403 | `remove` agrees if and only if the path is a proper pointer to something below the root |
| `Rfc6902.AddValueExactly` | src/cJSON_Utils.c:457-500 | putting a value agrees if and only if the code finds no container, or the path is a proper pointer into one and its last token is `-`, an index without leading zeros up to the length, or an escaped name |
| `Rfc6902.ReplaceOpExactly` | src/cJSON_Utils.c:394-500 | `replace` agrees if and only if the code finds no container, or the value is missing, or the target exists |
| `Rfc6902.MoveOpExactly` | src/cJSON_Utils.c:406-500 | `move` agrees if and only if the source is absent, or the addition after its removal agrees; a source above the destination, or one only the code finds, must end in an error |
| `Rfc6902.AgreesExactly` | src/cJSON_Utils.c:502-530 | on values: the code agrees with section 5 of RFC 6902 after every patch of a list if and only if every patch conforms on the document it meets |
| `PatchInPlace.ConformsInPlace` | src/cJSON_Utils.c:344-500 | one call in place, whatever heads are stale, agrees with section 4 of RFC 6902 if and only if the patch conforms and detaches no stale head |
| `PatchInPlace.ConformingRun` | src/cJSON_Utils.c:502-530 | a run in place agrees with section 5 of RFC 6902 after every patch if and only if every patch conforms and none detaches a stale head; if all conform, its outcome agrees if and only if none does |
| `PatchInPlace.ConformingYetAstray` | src/cJSON_Utils.c:383-403 | both patches of `OrderMatters` conform on the documents they meet, so conforming alone does not save a run |
| `Rfc6902.RemovesNothing` | src/cJSON_Utils.c:394-403 | removing an absent member reports success, against section 4.2 |
| `Rfc6902.AddsToNumber` | src/cJSON_Utils.c:493-496 | adding under a number reports success and does nothing, against section 4.1 |
| `Rfc6902.AddsBeyond` | src/cJSON_Utils.c:477-487 | an index beyond the length appends, against section 4.1 |
| `Rfc6902.ReadsLeadingZero` | src/cJSON_Utils.c:272-275 | the token 00 is read as an index, against section 4 of RFC 6901 |
| `Rfc6902.SkipsPrefix` | src/cJSON_Utils.c:459-466 | text before the first slash of a path is passed over, against section 3 of RFC 6901 |
| `Diff.AppendPatches` | src/cJSON_Utils.c:559-672 | the recursive comparison appends exactly the patches of `CompareToPatch`; what these are for is in `DiffPlaces` and `PatchRoundTrip` |
| `Diff.AppendArrayPatches` | src/cJSON_Utils.c:588-627 | the three array loops append the patches for common, removed and added elements, in that order |
| `Diff.AppendObjectPatches` | src/cJSON_Utils.c:629-667 | the merge walk over the two sorted member lists appends exactly the patches of `CompareToPatch` |
| `Diff.RemoveEffect` | src/cJSON_Utils.c:532-552 | a written removal, applied to any document that has the place, takes out the child and changes nothing else |
| `Diff.AddEffect` | src/cJSON_Utils.c:532-552 | a written addition puts the value in at its place and changes nothing else |
| `Diff.ReplaceEffect` | src/cJSON_Utils.c:532-552 | a written replacement replaces exactly the value at its place |
| `DiffPlaces.EmptyExactly` | src/cJSON_Utils.c:559-672 | at every path: no patch is written if and only if the two documents mean the same |
| `DiffPlaces.PatchesJustified` | src/cJSON_Utils.c:559-672 | every patch names a place where the meanings differ and says how: a replaced value, a child that went, a child that came |
| `DiffPlaces.NoneIdle` | src/cJSON_Utils.c:559-681 | for two containers of one kind: every generated patch changes the document it meets if and only if no array shrinks by more than one element anywhere; the idle ones are removals behind the end |
| `PatchRoundTrip.RemoveRun` | src/cJSON_Utils.c:607-619 | removing leftovers at growing indices removes every second one: exactly `Residue` of the leftovers stays |
| `PatchRoundTrip.DiffEffect` | src/cJSON_Utils.c:559-672 | the patches for a pair, applied wherever the first document sits, turn it into its `Outcome` and touch nothing else |
| `PatchRoundTrip.ContainerOutcome` | src/cJSON_Utils.c:502-680 | for two arrays or two objects, applying the generated patches succeeds and leaves exactly `Outcome(from, to)` |
| `PatchRoundTrip.OutcomeIff` | src/cJSON_Utils.c:607-619 | the outcome is `to` if and only if no array shrinks by more than one element anywhere |
| `PatchRoundTrip.RootReplace` | src/cJSON_Utils.c:255-260 | for any other pair of roots the generated patch works if and only if the documents were already equal |
| `PatchRoundTrip.PatchRoundTrip` | src/cJSON_Utils.c:344-680 | for every pair of well-formed documents: applying GeneratePatches(from, to) to a duplicate of `from` returns 0 and gives `to`, up to member order and key case, if and only if `CanPatch(from, to)` |
| `PatchInPlace.RoundTripInPlace` | src/cJSON_Utils.c:344-680 | the same in place on any tree that means what `from` means, `from` itself as the generator leaves it included: if and only if `CanPatch(from, to)` and no patch detaches a stale head; without stale heads none does, because generated patches hold no `test` |
| `PatchInPlace.AppliedToItself` | src/cJSON_Utils.c:629-667 | the failing input: generating from {"b": n, "a": m} to {"b": n} sorts the first document and leaves its new head stale, and the patch applied to it goes astray |
| `PatchRoundTrip.ShrinkByTwo` | src/cJSON_Utils.c:607-619 | the smallest failure: from two elements to none leaves the second one |
| `MergePatch.MergedMeaning` | src/cJSON_Utils.c:794-825 | applying a well-formed merge patch is the merge of section 2 of RFC 7396 on meanings, and keeps documents well formed |
| `MergePatch.MergeDocuments` | src/cJSON_Utils.c:794-825 | the loop computes `Merged`; a NULL patch gives NULL |
| `MergePatch.GeneratedMeaning` | src/cJSON_Utils.c:827-881 | with lower-case keys the generator writes null for what went, the value for what came and the nested patch for what changed, and NULL exactly for two equal objects |
| `MergePatch.GenerateMergePatch` | src/cJSON_Utils.c:827-881 | the walk computes `Generated`; a null patch for a NULL target, the whole target for a NULL source |
| `MergePatch.MergeRoundTrip` | src/cJSON_Utils.c:794-881 | with lower-case keys: NULL exactly for equal objects, otherwise merging the patch into a duplicate of `from` gives `to` if and only if `to` needs no null to be sent |
| `MergePatch.NoNullsExpressible` | src/cJSON_Utils.c:794-881 | a target without null members outside arrays is always reachable |
| `MergePatch.CaseBreaksMerge` | src/cJSON_Utils.c:846-861 | keys that differ in case only break the law: from {"a": x} to {"A": x} the patch deletes what it added |
| `MergeExact.MergedApplies` | src/cJSON_Utils.c:794-825 | applying any patch, repeated keys included, changes the meaning member by member in order |
| `MergeExact.GenerateRun` | src/cJSON_Utils.c:840-874 | what the generated patch does to one key depends only on whether the walk passes it in `from` first, in `to` first, or in both together |
| `MergeExact.MergeRoundTripExactly` | src/cJSON_Utils.c:794-881 | for every pair of well-formed documents, whatever the case of their keys: a NULL patch means they were equal, otherwise merging the patch into a duplicate of `from` gives `to` if and only if `Mergeable(from, to)` |
| `StringParser.ScanLiteral` | src/cJSON.c:564-586 | finds the closing quote, stepping over escaped characters, and counts the backslashes skipped |
| `StringParser.ParseHex4` | src/cJSON.c:375-408 | the value of four hexadecimal digits, zero for anything else |
| `StringParser.ReadCodePoint` | src/cJSON.c:412-486 | joins a surrogate pair as section 2.1 of RFC 2781 says and fails on a lone or malformed one |
| `StringParser.JoinSplit` | src/cJSON.c:447-481 | joining is the inverse of the UTF-16 encoding of every supplementary code point |
| `StringParser.WriteUtf8` | src/cJSON.c:488-547 | writes exactly the UTF-8 form of the code point and nothing else |
| `StringParser.DecodeUtf8` | src/cJSON.c:488-547 | that form decodes to the code point by section 3 of RFC 3629 |
| `StringParser.DecodeLiteral` | src/cJSON.c:597-648 | writes the unescaped text, and whether or not the literal is accepted never more than the estimate |
| `StringParser.ParseLiteral` | src/cJSON.c:550-665 | accepts exactly what the reference unescape accepts, with the same text and rest, and, accepted or not, writes fewer characters than it allocated |
| `DocumentParser.SkipWhitespace` | src/cJSON.c:794-802 | skips exactly the leading blanks |
| `DocumentParser.ParseValueText` | src/cJSON.c:953-1004 | computes the reference parser `ParseValue`, rejections included |
| `DocumentParser.ParseArrayText` | src/cJSON.c:1081-1156 | the loop over elements computes `ParseArray`, whose texts `Spelling.ParsesExactly` gives |
| `DocumentParser.ParseObjectText` | src/cJSON.c:1223-1315 | the loop over members computes `ParseObject`, whose texts `Spelling.ParsesExactly` gives |
| `DocumentParser.ParseDocument` | src/cJSON.c:805-842 | parses a text and says where it ended, demanding nothing but blanks behind the value if asked to |
| `Spelling.ShortTable` | src/cJSON.c:609-630 | the two-character escapes read are exactly those of section 7 of RFC 8259, the escaped slash included |
| `Spelling.LiteralRead` | src/cJSON.c:550-665 | every string literal of the grammar, with any mix of characters, short escapes and hexadecimal ones in either case, surrogate pairs included, is read as what it spells |
| `Spelling.LiteralSpelled` | src/cJSON.c:550-665 | and whatever is read as a string is such a literal |
| `Spelling.ParsesExactly` | src/cJSON.c:953-1315 | a text is read as a value with a rest left over if and only if it is a spelling of that value in the grammar, with any blanks around the structural characters, followed by that rest |
| `Spelling.DocumentsExactly` | src/cJSON.c:805-842 | a whole text is accepted if and only if it is blanks, a spelling and, where the text has to end, blanks; what is returned is the document spelled and the rest |
| `TextRoundTrip.ParseQuoted` | src/cJSON.c:550-777 | a printed string followed by anything is read back exactly, with exactly the rest left over |
| `TextRoundTrip.PrintSpells` | src/cJSON.c:1007-1431 | what either printer writes is a spelling of the document in that grammar |
| `TextRoundTrip.ParsePrint` | src/cJSON.c:953-1431 | a printed value followed by anything that does not prolong a number is read back as the same tree, with exactly the rest left over |
| `TextRoundTrip.PrintThenParse` | src/cJSON.c:805-1431 | parse undoes print for every tree of printable values, at any depth, formatted or not, and consumes all of the text |
| `Layout.FormattedIsLaid` | src/cJSON.c:1159-1431 | the formatted text is the unformatted one laid out by a walk that knows only which brackets are open: line ends behind braces and members, tabs by depth, a tab behind a colon, a space behind the comma of an array |
| `Shortest.NoneShorter` | src/cJSON.c:1007-1431 | no text of the grammar of RFC 8259 that spells a document is shorter than its unformatted text |
| `Shortest.PrintedStrict` | src/cJSON.c:668-777 | that text is of that grammar: no control character stands in a string unescaped |
| `PrintBuffer.Buffer.Ensure` | src/cJSON.c:240-308 | room is made exactly if offset and request stay within the fixed length, or within INT_MAX for a buffer that may grow; finished text is kept and a refusal changes nothing |
| `PrintBuffer.Buffer.UpdateOffset` | src/cJSON.c:311-321 | moves the offset to the end of the text shown |
| `PrintBuffer.Buffer.PrintString` | src/cJSON.c:668-777 | the two-pass writer leaves the quoted text behind what was there, or fails exactly if it does not fit; the earlier text and the block from its length on are untouched either way |
| `PrintBuffer.Buffer.PrintNumeral` | src/cJSON.c:324-372 | leaves the decimal numeral, asking for 21 or 64 characters first |
| `PrintBuffer.Buffer.PrintValue` | src/cJSON.c:1007-1078 | leaves exactly the pure printer's text and a terminator behind the earlier text, across any number of reallocations, if and only if `Need` fits; the earlier text and a fixed block from its length on are kept either way |
| `PrintBuffer.Buffer.PrintArray` | src/cJSON.c:1159-1220 | the same for arrays, with the text that `Layout.FormattedIsLaid` and `Shortest.NoneShorter` fix |
| `PrintBuffer.Buffer.PrintObject` | src/cJSON.c:1318-1431 | the same for objects, with the text that `Layout.FormattedIsLaid` and `Shortest.NoneShorter` fix |
| `PrintBuffer.NeedBounds` | src/cJSON.c:1007-1078 | the largest request is at least the text and its terminator and at most 53 characters more |
| `PrintBuffer.PrintDocument` | src/cJSON.c:854-901 | the text in a block of exactly its size, or NULL exactly if the largest request passes INT_MAX |
| `PrintBuffer.PrintBuffered` | src/cJSON.c:914-934 | the growing block, starting with the text |
| `PrintBuffer.PrintPreallocated` | src/cJSON.c:936-950 | succeeds exactly if the largest request fits the caller's length, and then the text is there; nothing from that length on is touched |
| `PrintBuffer.SmallNumberRefused` | src/cJSON.c:334-343 | every `int` has fewer than twelve characters, yet every length under 21 is less than what printing it asks for, so PrintPreallocated refuses it |
| `Minify.MinifyPrinted` | src/cJSON.c:2092-2154 | minifying what either printer wrote gives exactly the unformatted text, for every tree and depth |
| `Minify.MinifyThenParse` | src/cJSON.c:2092-2154 | minifying keeps the meaning: a document spelled with any blanks and comments between its tokens becomes its tokens alone, and these are read as the same document |
| `Minify.KeepLiteral` | src/cJSON.c:2131-2144 | a string literal is copied whole, blanks and slashes included |
| `Minify.CommentEnds` | src/cJSON.c:2122-2130 | a block comment is skipped up to its first star and slash, wherever that is |
| `Minify.BlockEnds` | src/cJSON.c:2122-2130 | so it ends where it was meant to if and only if no star and slash stand side by side in it, the star that opens it included |
| `Minify.ShortComment` | src/cJSON.c:2122-2130 | the failing input: a slash right behind the star that opens a comment ends it |
| `Minify.MinifyInPlace` | src/cJSON.c:2092-2154 | overwrites the text in place with its minified form; the write index never passes the read index |
| `Matches.List.Step` | src/switch_console.c:1740-1769 | one comparison exchanges two neighbours exactly if they are out of order, keeps every link but the last node's right, and moves the four-node window on |
| `Matches.StepKeeps` | src/switch_console.c:1740-1769 | a comparison carries the largest node seen one place further and leaves the settled end settled |
| `Matches.List.Sort` | src/switch_console.c:1721-1777 | the list from head to end is a permutation of the nodes in dictionary order, the count unchanged and the last link cleared, although that link is stale during the passes |
| `Matches.PushMatch` | src/switch_console.c:1793-1814 | appends the value, making the list if there is none |
| `Matches.PushMatchUnique` | src/switch_console.c:1779-1791 | appends the value unless one equal ignoring case is there |
| `Matches.CollectedUnique` | src/switch_console.c:1779-1791 | after any run of unique pushes no two values agree ignoring case, everything pushed is listed and nothing else |
| `ByteBuffer.Buffer.Write` | src/switch_buffer.c:289-344 | does what `ByteQueue.Write` says, through compaction, growth and copying in the block; head offset and unread bytes always add up to the stored ones |
| `ByteBuffer.Buffer.Read` | src/switch_buffer.c:234-252 | takes the oldest bytes, as many as asked for and there are |
| `ByteBuffer.Buffer.Peek` | src/switch_buffer.c:254-270 | the same without taking them |
| `ByteBuffer.Buffer.Toss` | src/switch_buffer.c:193-209 | drops the oldest bytes |
| `ByteBuffer.Buffer.ReadLoop` | src/switch_buffer.c:217-232 | does what `ByteQueue.ReadLoop` says |
| `ByteBuffer.Buffer.ZWrite` | src/switch_buffer.c:355-369 | does what `ByteQueue.ZWrite` says |
| `ByteBuffer.Buffer.SlideWrite` | src/switch_buffer.c:371-385 | does what `ByteQueue.SlideWrite` says |
| `ByteBuffer.Buffer.Freespace` | src/switch_buffer.c:176-186 | the answer in `size_t` arithmetic |
| `ByteBuffer.Buffer.MoveToFront` | src/switch_buffer.c:305-309 | moves the unread bytes to the front and loses none |
| `ByteBuffer.Buffer.SetPartition` | src/switch_buffer.c:74-83 | a partition shows exactly the given bytes; any other buffer is left alone |
| `ByteQueue.WriteAllOrNothing` | src/switch_buffer.c:289-344 | a write appends everything and answers the new length, or leaves the contents and answers zero; it does the first if and only if the buffer is no partition and the bytes fit the capacity or the limit of a growing buffer |
| `ByteQueue.WriteCompacts` | src/switch_buffer.c:303-309 | what was read already stays to be replayed until new bytes have no room behind the stored ones, and goes then |
| `ByteQueue.TossContents` | src/switch_buffer.c:193-217 | tossing drops the oldest bytes, as many as asked for and there are, and they are the ones a peek shows |
| `ByteQueue.CompactBeforeGrow` | src/switch_buffer.c:305-332 | a buffer grows only after its unread bytes were moved to the front, and then they and the new ones fit |
| `ByteQueue.ZWriteMeaning` | src/switch_buffer.c:355-369 | appends if it can, else replaces the contents if the block fits alone, else empties the buffer |
| `ByteQueue.SlideWriteMeaning` | src/switch_buffer.c:371-385 | succeeds if and only if the block fits the capacity or the limit alone; it drops only the oldest bytes, as many as it brings |
| `ByteQueue.RunBounded` | src/switch_buffer.c:289-385 | every operation of every run keeps the capacity of a limited growing buffer within the bound |
| `ByteQueue.CapacityOfRuns` | src/switch_buffer.c:113-142 | from creation on the capacity never falls below its start and never passes max(start, max_len - 1 + max(max_len, blocksize)) |
| `ByteQueue.BoundReached` | src/switch_buffer.c:289-344 | for every limit above one and every block size a single write reaches the bound |
| `ByteQueue.UsedPassesLimit` | src/switch_buffer.c:176-186 | two writes take the contents past the limit, and the reported free space wraps around |
| `ByteQueue.LimitPassed` | src/switch_buffer.c:311-338 | a write that takes the contents past the limit needed no growth: the capacity was past it before |
| `ByteQueue.FreespaceWritable` | src/switch_buffer.c:176-186 | everything up to the reported free space can be written if and only if the contents are within the limit |
| `ByteQueue.FreespaceExact` | src/switch_buffer.c:176-186 | and nothing more can if and only if the capacity is within the limit too |
| `ByteQueue.FreespaceFixed` | src/switch_buffer.c:176-190 | of a buffer that cannot grow the reported free space is always exactly what can be written |
| `ByteQueue.ReadLoopStep` | src/switch_buffer.c:217-232 | each positive read takes its answer off the front of what remains to be delivered and is empty only if nothing remains |
| `ByteQueue.DeliveredInOrder` | src/switch_buffer.c:217-252 | whatever the positive chunk sizes, a run delivers a prefix of what remains, and all of it after enough calls |
| `ByteQueue.ReplayExactly` | src/switch_buffer.c:212-232 | with loops set to n and nothing written, exactly n copies of the contents are delivered and nothing after them |
| `ByteQueue.ReplayForever` | src/switch_buffer.c:217-232 | with a negative count every call delivers something |
| `ChannelObject.Channel.Transition` | src/switch_channel.c:2353-2506 | the transition table is: anywhere from the two entry states, to new from nowhere else, to init only out of hibernation, forward only after hangup |
| `ChannelObject.Channel.SetState` | src/switch_channel.c:2313-2532 | moves the state, gives a hangup its default cause, and reports exactly the calls that stop the program |
| `ChannelObject.Channel.SetRunningState` | src/switch_channel.c:2260-2311 | raises the deferred flags in a loop, then sets the running state and the call state |
| `ChannelRuns.FreshIsSane` | src/switch_channel.c:444-469 | a newly allocated channel starts a run the laws below speak of |
| `ChannelRuns.StopsExactly` | src/switch_channel.c:2313-2532 | the program stops itself exactly when no state is given or a live channel is sent where the table does not allow |
| `ChannelRuns.HangupIsFinal` | src/switch_channel.c:2313-2532 | over every run: once hung up the state never goes back, and a cause once given stays |
| `ChannelRuns.HangupOnce` | src/switch_channel.c:3265-3296 | over every run: the guarded part of a hangup happens at most once |
| `ChannelRuns.HowItEnds` | src/switch_channel.c:2353-2361 | over every run: only a hangup, or a state change out of one of the two entry states, takes a live channel down |
| `ChannelRuns.StaysUnanswered` | src/switch_channel.c:2260-2274 | over every run: a channel hung up unanswered stays unanswered if and only if no later step sets the flag directly or raises it from among the deferred ones |
| `ChannelRuns.DeferredAnswer` | src/switch_channel.c:2260-2274 | a run of that kind: a deferred answer is given after the hangup |
| `CallRuns.StepLawful` | src/switch_channel.c:1844-2110 | one step, told from the event and the flags before it: the call state, every flag, the state, the running state and the cause become what the event asks for, and nothing else changes |
| `CallRuns.CallStateStays` | src/switch_channel.c:277-301 | over every run: the call state stays while no event asks for one, and for good once it is hangup |
| `CallRuns.LastAsked` | src/switch_channel.c:277-301 | over every run: otherwise it is what the last event that asked for one asked for: active by an answer, held by a hold that counts, unheld or active after it, ringing, active or early by a running state of a live inbound channel, ring-wait or active by the originator flag |
| `CallRuns.LastPut` | src/switch_channel.c:1844-2110 | over every run: a flag has the value the last event that touches it gave it |
| `CallRuns.StepQueued` | src/switch_channel.c:2020-2037 | the flags that wait for the next running state are those deferred and not taken back since the last one |
| `HoldRuns.BooksBalance` | src/switch_channel.c:2039-2088 | over every run of a fresh channel with a clock that does not run backwards: the hold books are right in all states up to any point if and only if every step before it meets `KeepsBooks`; right means the records are in order, only the newest is open, exactly while a hold begun after answering lasts, and the accumulated time is the sum of the ended ones |
| `HoldRuns.BooksStep` | src/switch_channel.c:1844-2092 | one step of any kind keeps right books right if and only if `KeepsBooks` holds in the state before it |
| `HoldRuns.UnanswerExactly` | src/switch_channel.c:2039-2050 | taking the answer back does if and only if there is no hold record yet |
| `HoldRuns.SetToZeroExactly` | src/switch_channel.c:1844-1904 | setting the hold flag to zero does if and only if no hold is being recorded and the flag is set or the channel unanswered |
| `HoldRuns.RunExactly` | src/switch_channel.c:2260-2277 | a change of the running state does if and only if it does not raise a deferred hold on an answered channel that was not on hold |
| `HoldRuns.ClosedMeans` | src/switch_channel.c:1884-1904 | that order means: ended intervals, disjoint, newest first |
| `HoldRuns.HangupKeeps` | src/switch_channel.c:3280-3301 | a hangup ends and accounts the hold and leaves its own last look at the records nothing to do |
| `HoldRuns.AnswerTakenBack` | src/switch_channel.c:2047-2050 | an instance, reached from a fresh channel: clearing the answered flag during a hold leaves the record open after the hold |
| `HoldRuns.SetToZero` | src/switch_channel.c:1852-1859 | an instance: setting the hold flag to zero opens a record without a hold |
| `HoldRuns.DeferredHold` | src/switch_channel.c:2266-2273 | an instance: a deferred hold is not recorded, and its end counts earlier time twice |
| `HoldRuns.MarkedStep` | src/switch_channel.c:2020-2037 | every step keeps the mark set while a flag is deferred |
| `HoldRuns.DeferredTakeEffect` | src/switch_channel.c:2260-2277 | at a change of the running state every deferred flag is set, no other but the tag is touched, and none stays deferred |
| `DeviceTable.FetchStats` | src/switch_channel.c:4920-5002 | the walk along the legs computes the counters of `Tally` |
| `DeviceModel.TallyCounts` | src/switch_channel.c:4920-5002 | every counter counts the legs of its sort |
| `DeviceModel.TallyPartition` | src/switch_channel.c:4920-5002 | the counters part the list, idle legs apart, the off-hook counter counts the legs not hung up, and every counter is the sum of its directions |
| `DeviceModel.DeviceStateIs` | src/switch_channel.c:5142-5161 | the state of a device told from its legs: each state is given exactly for the legs it is for |
| `DeviceModel.CheckClocks` | src/switch_channel.c:5125-5293 | after every check the ring and hold clocks run exactly if the last state is ringing or held, and the talk clock exactly if it is active, or was running when a hold was ended |
| `DeviceRuns.HangupExactly` | src/switch_channel.c:5069-5123 | a hangup keeps the registry right if and only if the channel is not attached or was not already its device's last |
| `DeviceRuns.RegistryRuns` | src/switch_channel.c:4920-5368 | over every run in which no such channel hangs up twice: a device is registered exactly while it has a leg off the hook, its references are the number of those, and its clocks are right |
| `InetPton.InetPton4` | src/inet_pton.c:103-140 | accepts exactly four decimal numbers up to 255 between points, writes exactly those four octets, and otherwise touches nothing |
| `InetPton.ScanTokens` | src/inet_pton.c:174-215 | the character loop computes the token-by-token reading, overflow, missing room and dotted tail included |
| `InetPton.Shift` | src/inet_pton.c:216-229 | the overlapping shift leaves the front, zeros and the back; with no room between them only zeros behind the front |
| `InetPton.InetPton6` | src/inet_pton.c:156-235 | writes exactly the address of an accepted text, and otherwise touches nothing |
| `InetPton.InetPtonFamily` | src/inet_pton.c:74-91 | the answer and the bytes by address family |
| `InetText.ProperAccepted` | src/inet_pton.c:156-235 | every address written as section 2.2 of RFC 4291 says, in any case, with any leading zeros, any gap of at least one group and an optional dotted tail, is read as exactly its sixteen bytes |
| `InetText.AddressExactly` | src/inet_pton.c:156-235 | the accepted texts and their bytes are exactly those of the lax texts |
| `InetText.AcceptedProper` | src/inet_pton.c:143-154 | an accepted text is a properly written address, read as what it means, if and only if it has neither a single colon at its end nor a gap where sixteen bytes are already there |
| `InetPton.LooseEndAccepted` | src/inet_pton.c:187-201 | eight groups and a colon are accepted although no proper address is written like that |
| `InetPton.FullGapWipes` | src/inet_pton.c:149-150 | a gap among eight groups is not ignored: whatever stands behind it becomes zero |

## Left out

- PatchInPlace.Document.ApplyPatches: inputs on which the source has no defined effect are outside the model: an `op`, `path` or `from` that is present but no string where it is used, a last token that ends in `~`, an array index outside `int`, and a path without a slash added to an array.
- PrintBuffer.Buffer.Ensure: only the `realloc` branch; the hand-written copy for custom allocation hooks is not modelled.
- PrintBuffer.Buffer.PrintNumeral: integers a double holds exactly; fractions, exponents, infinities and NaN are not modelled.
- DocumentParser.ParseValueText: numbers are decimal integers; what `strtod` accepts beyond them, and saturation of the integer copy, are not modelled.
- Minify.MinifyInPlace: texts whose literals and comments are closed; on others the source reads past the terminator.
- StaleHeads.RunExactly: its law forbids every write through a stale link; the one kind that leaves the tree intact all the same, when the head detached is the last node of its list and the node named has become the last of another, is not told apart.
- JSON trees as linked nodes: heap lists and tracked trees meet one object at a time (`StaleHeads.DetachMember`, `SortMembers`, `AppendMember`), with the values of its members taken as values.
- Rfc6902.ConformsExactly: about a call that fails it says that it fails; what such a call has already changed is in `PatchMeaning.ApplyMeaning`.
- Member names in `Rfc6902` agree ignoring case, as everywhere in cJSON; RFC 6901 compares them exactly.
- The order of members inside the values a generated merge patch copies: the comparison before has sorted them.
- The stale heads the two generators leave in `from`, beyond the instance `PatchInPlace.AppliedToItself`, and merging into a document with stale heads.
- Raw nodes, references, constant keys, missing keys, error pointers, allocation hooks and allocation failure in cJSON.
- `cJSON_Duplicate`, the constructors and the case-sensitive lookup.
- Zero-copy peeking, locking and destruction of byte buffers, and buffer ids.
- Events, variables, presence, logging, partner channels, recursive and application flags, the direction flag and the video thread in the channel.
- The ring-ready and pre-answer marks of a channel: their call states enter a run as events of their own, their other effects are not modelled.
- Interleavings inside one channel call: each call is one step, and its clock is read once.
- The call-state step of a channel and of its device leg are two models; that one call does both is not stated.
- Device bindings, memory pools, the copied hold records and the destruction of a finished device record.
- The check for a fifth octet in `inet_pton4`, which cannot be reached.
- Everything else in the console, and all other files of the repository.
