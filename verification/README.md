# Verification of ingescape's core

A Dafny model of the parts of the ingescape library where several pieces of state have to agree, with proofs
that they do. Five components are modelled, and the path between them:

1. **Mappings.** An agent keeps a list of (input, agent, output) triples, each with a 64-bit djb2 hash as its
   id, and a cached JSON export. `Djb2`, `ZLists` (the CZMQ list with the one cursor that all walks over it
   share), `MappingText` (export and parser) and `MappingStore` (comparison, the operations, and the class
   `MappedAgent`). Loading a mapping returns early when the text compares equal to the cached text. That this
   is right needs the cache to be current, export and parser to undo each other, and a one-sided comparison of
   ids to decide set equality.
2. **Definitions.** `Json` is the stream of generator calls and the stack machine that builds a tree from it;
   `JsonNodes` is the heap tree with copy, insert and print. `Definitions` has the three export forms and the
   parser as functions, `DefinitionText` their loops, `DefinitionTokens` what each form prints key by key,
   `DefinitionRoundTrip` and `DefinitionParsed` what parser and exports are to each other, `Constraints` the text
   of integer constraints, and `DefinedAgents` the operations that change a definition.
3. **Network.** `NetworkState` is a step machine: peers with their reconnection counter, remote agents,
   subscription filters, local agents with two dirty flags, two timers, and a log of what the agents of this
   process are told. `NetworkProofs` has its invariants over all runs, `NetworkHistory` tells what a run leaves
   in the tables by its steps alone, and `NetworkLoop` has the handlers that refine the machine. `Delivery` is
   the loop that hands a publication to the local agents while callbacks may create and destroy them.
   `Elections` keeps agents, elections and joined groups in agreement.
4. **Wire formats.** `Wire` (numbers and C strings as bytes), `Publication`, `ServiceArgs` (linked argument
   lists on the heap) and `ServiceCall`.
5. **Typed writes and text.** `ModelWrite` is the conversion table with its constraint checks, `CStrings` the
   in-place string cleaner, `CommandLine` the quoting with its bound.

`MappedInputs` joins 3, 4 and 5: in every run, once the definition and then the mapping of a local agent have
been announced and until it is changed again, a publication of a linked output passes a filter, is decoded
exactly, and is written to the linked input; an input of its type becomes equal to it unless that breaks an
enforced constraint, and then stays as it was.

Loops and objects of the C code are methods and classes here; each is proved equal to a function, and the
properties are lemmas about the functions. A char of a Dafny string stands for one byte. `Option` stands for a
pointer that may be NULL. In the network machine a locked region that changes a table is one step; the
handlers that release the lock in between are several steps, and what callbacks do there are steps as well.
Where the C code walks a hash table, the order of the walk is an argument.

Taken as parameters, because they are foreign: number conversions and formatting of the C library in
`ModelWrite`, the packing of a message into one frame in `Publication` (used only through its being lossless),
what callbacks do in `Delivery` and `NetworkLoop`, and clocks everywhere.

## Where the code differs from what it says

- A comment says that comparing ids is enough to compare whole elements. Two dot-free triples can have one id,
  and names are not checked for dots: see `Djb2.CollidingInputs`, `Djb2.UnambiguousIffDotFree`. So an add may
  map nothing, a removal by name may drop another triple, and a load may be ignored: `MappingStore.AddMapsItIff`,
  `MappingStore.RemoveDropsItIff`, `MappingStore.LoadGivesElemsUnlessCollision`.
- The walk over a mapping that delivers a publication goes on from the cursor of the list after callbacks, and
  every search in that list moves it: `Delivery.ExactIffNeverMovedAway`, `Delivery.UnsetCursorNeverEnds`.
- A comment in the service handler says that missing arguments are rejected. One missing argument is not, when
  timestamps are enabled: `ServiceCall.RefusedIff`.
- The string cleaner signals a change for a clean string of exactly the maximal length:
  `CStrings.SignalIsExactUnlessFull`.
- The filter of an output name of maximal length is one character short: `NetworkProofs.LongestOutputIsCut`.
- The parser lists a repeated reply name twice: `DefinitionParsed.RepliesOnceIff`.
- A constraint can be broken by an impulsion that comes with a value, data for a string is checked as a number,
  and a bool is checked as four bytes: `ModelWrite.EnforcedIff`, `ModelWrite.BoolCheckReadsOn`.
- A publication triple without a timestamp takes over that of an earlier triple of the message; the messages of
  the library itself never mix the two kinds: `Publication.StampIsLeftOver`,
  `Publication.CurrentOutputsHaveNoStamp`.
- The buffer of an argument of the command line is not checked, and the checks of the path leave no room for
  the terminator: `CommandLine.FormatArg`, `CommandLine.QuotePath`, `CommandLine.FitsIffPathDoes`.

The code is modelled as it is; each of these is stated with the exact condition.

## Model

| member | source | states |
|---|---|---|
| `CStrings.CleanString` | src/igs_model.c:829-857 | in place, the buffer ends up holding the first max characters of the string without its five kinds of control characters, nothing behind the old terminator changes, and the return value is non-zero exactly when SignalsChange says so |
| `CStrings.StripLaws` | src/igs_model.c:837-843 | exactly the characters 9 to 13 are removed, one by one |
| `CStrings.CheckString` | src/igs_model.c:859-880 | accepts exactly the strings without control characters and of at most max characters |
| `CStrings.AcceptableIff` | src/igs_model.c:859-880 | what is accepted, by character codes and length |
| `CStrings.CleanedIsAcceptable` | src/igs_model.c:829-880 | what is cleaned is accepted by the check, and cleaning is the identity exactly on what the check accepts |
| `CStrings.CleanedIdempotent` | src/igs_model.c:829-857 | cleaning twice is cleaning once |
| `CStrings.SignalIsExactUnlessFull` | src/igs_model.c:848-853 | the returned change signal means "changed" exactly unless the string is clean and has exactly max characters |
| `CStrings.FalseAlarmExample` | src/igs_model.c:848-853 | a string of exactly max characters is reported as changed and is not |
| `Djb2.Hash` | src/igs_mapping.c:24-31 | the shift-and-add loop in 64-bit arithmetic computes 5381*33^n + sum of c_i*33^(n-1-i) modulo 2^64 |
| `Djb2.HashLaws` | src/igs_mapping.c:24-31 | the hash of "" is 5381, and one more character c makes 33 * hash + c modulo 2^64 |
| `Djb2.SuffixKeepsCollisions` | src/igs_mapping.c:24-31 | appending a common suffix neither creates nor removes a collision, because 33 is invertible modulo 2^64 |
| `Djb2.MashupInjective` | src/igs_mapping.c:388-396 | "input.agent.output" determines the triple when the names have no dot |
| `Djb2.UnambiguousIffDotFree` | src/igs_mapping.c:388-396 | a triple is the only one with its text exactly when none of its three names has a dot; names are not checked for dots |
| `Djb2.CollidingInputs` | src/igs_mapping.c:24-31 | two dot-free inputs get the same id for every agent and output |
| `ZLists.ZList.RemoveCurrent` | src/igs_mapping.c:295-341 | removing the item under the cursor, as the clear loops do, moves the cursor to its predecessor and keeps the rest in order |
| `ZLists.ZList.Next` | src/igs_mapping.c:303-313 | next moves on, and from an unset cursor to the head |
| `Json.ParseEmit` | src/igs_json_node.c:25-66 | every tree that is printed as generator calls is read back as it was |
| `Json.EmitParse` | src/igs_json_node.c:122-131 | an accepted text is exactly the calls that print the tree it is read as, so the stream is well nested |
| `Json.LookupLast` | src/yajl_tree.c:456-475 | a field added at the end of a map is the one found when no earlier field has its key |
| `JsonNodes.Dup` | src/igs_json_node.c:152-204 | the copy is a valid tree of new nodes only, and says the same as the original |
| `JsonNodes.Iterate` | src/igs_json_node.c:25-66 | the walk over the heap tree makes exactly the generator calls of its value |
| `JsonNodes.IterateScalar` | src/igs_json_node.c:25-66 | the call for a node without children, by its kind |
| `JsonNodes.Insert` | src/igs_json_node.c:218-258 | the parent keeps being a valid tree; an array gets a copy at its end; in a map the key then finds the copy and every other key what it found before; a scalar is left alone; every other child is the same node at the same place |
| `JsonNodes.LookupSetField` | src/igs_json_node.c:218-258 | after an insert the key finds the new value and every other key finds what it found before |
| `JsonNodes.SetFieldKeys` | src/igs_json_node.c:229-256 | an insert keeps the keys distinct and in order, with a new key at the end |
| `JsonNodes.LookupsDecide` | src/igs_json_node.c:218-258 | two lists of fields with the same distinct keys in order that answer every lookup alike are equal |
| `JsonNodes.InsertIsUnique` | src/igs_json_node.c:218-258 | so an insert is the only change that sets the key, keeps all other answers and adds no other key |
| `MappingText.ExportMapping` | src/igs_parser.c:1693-1746 | the export prints the tree of the elements and splits in list order |
| `MappingText.ExportMappingLegacy` | src/igs_parser.c:1749-1783 | the legacy export prints the elements alone, under the deprecated names |
| `MappingText.MappingTokens` | src/igs_parser.c:1693-1746 | the names that the current form prints around the two lists |
| `MappingText.LegacyTokens` | src/igs_parser.c:1749-1783 | the names that the legacy form prints around its one list |
| `MappingText.ElemTokens` | src/igs_parser.c:1699-1719 | one element more is one map more at the end, with its input, agent and output under the names of the form |
| `MappingText.ParseMapping` | src/igs_parser.c:552-747 | the reading loops build exactly the lists of ReadMapping, and give nothing exactly when there is neither a mapping nor a split; nodes that are no arrays are read by what lies where an array has its length |
| `MappingText.LoadMapping` | src/igs_parser.c:784-798 | a text gives a mapping exactly when its root is a map that the parser accepts, and then the lists of ReadMapping |
| `MappingText.LookupId` | src/igs_mapping.c:398-406 | the walk finds an element exactly when one has the id |
| `MappingText.LoadOk` | src/igs_parser.c:633-662 | whatever is parsed has distinct ids, each the hash of its own cleaned triple, as the API computes them |
| `MappingText.ItemReadIff` | src/igs_parser.c:600-632 | an item is read exactly when it is a map with the three texts under the names of the form |
| `MappingText.ElementReadIff` | src/igs_parser.c:633-662 | the elements read are exactly those of the items that are the first to have their id |
| `MappingText.ExportLoad` | src/igs_parser.c:1693-1746 | parsing the export of a well-formed mapping gives it back, elements and splits in order |
| `MappingText.LegacyExportLoad` | src/igs_parser.c:570-583 | parsing the legacy export gives the mapping without its splits |
| `MappingStore.IsEqual` | src/igs_mapping.c:77-172 | the nested loops compute EqualTexts on NULL, unparsable and valid texts |
| `MappingStore.EqualTextsDecides` | src/igs_mapping.c:77-172 | equal sizes and one-sided inclusion decide that both id sets, of elements and of splits, are equal |
| `MappingStore.EqualTextsIff` | src/igs_mapping.c:77-172 | two texts are equal exactly when both are NULL, both are no mappings, or both have the same ids, of elements and of splits |
| `MappingStore.EqualTextsIsEquivalence` | src/igs_mapping.c:77-172 | the comparison is reflexive, symmetric and transitive over all optional texts |
| `MappingStore.InclusionDecidesEquality` | src/igs_mapping.c:117-165 | for lists with distinct ids, as many elements and one-sided inclusion mean equal id sets |
| `MappingStore.ApplyOk` | src/igs_mapping.c:221-501 | every operation keeps ids distinct and each the hash of its own triple |
| `MappingStore.EveryRunOk` | src/igs_mapping.c:221-501 | so does every run of add, remove, clear and load |
| `MappingStore.RemoveToAgent` | src/igs_mapping.c:303-313 | the loop that removes while it walks ends, and what is left are the elements to other agents, in order |
| `MappingStore.ComparedWithCache` | src/igs_mapping.c:228-236 | comparing a text with the cached export tells whether the text parses to the current ids |
| `MappingStore.LoadGivesElemsUnlessCollision` | src/igs_mapping.c:230-236 | the elements are those of the text too, except exactly when the ids agree while one of them stands for two triples |
| `MappingStore.AddMapsItIff` | src/igs_mapping.c:396-413 | after an add the triple is mapped exactly when no other triple was mapped under its id |
| `MappingStore.RemoveDropsItIff` | src/igs_mapping.c:471-497 | a removal by name that succeeds drops one triple and keeps all others, and that is the named one exactly when no other triple has its id |
| `MappingStore.IgnoredLoad` | src/igs_mapping.c:230-236 | a load of a colliding element changes nothing and reports success |
| `MappingStore.IgnoredLoadExample` | src/igs_mapping.c:230-236 | two such texts |
| `MappingStore.IgnoredAddExample` | src/igs_mapping.c:396-406 | adding a colliding triple returns the id of the other one and maps nothing |
| `MappingStore.OtherTripleDroppedExample` | src/igs_mapping.c:471-497 | removing "b!.x.y" where only "aB.x.y" is mapped drops the latter and succeeds |
| `MappingStore.MappedAgent.constructor` | src/igs_mapping.c:279-293 | a new agent has no element and a current cache |
| `MappingStore.MappedAgent.UpdateJson` | src/igs_mapping.c:202-215 | both cached texts become the exports of the current elements |
| `MappingStore.MappedAgent.MappingAdd` | src/igs_mapping.c:367-420 | the id is the hash of "input.agent.output"; the element of the four is added at the end exactly when no element has that id; the splits stay; cache and send flag follow |
| `MappingStore.MappedAgent.MappingRemoveWithId` | src/igs_mapping.c:422-450 | succeeds exactly when the id is mapped; what is left are the elements with other ids, told by their indices in order; the splits stay |
| `MappingStore.MappedAgent.MappingRemoveWithName` | src/igs_mapping.c:452-501 | the same for the hash of "input.agent.output"; it drops the named triple exactly when no other one has its id |
| `MappingStore.MappedAgent.ClearMappings` | src/igs_mapping.c:279-293 | both lists are new and empty, and an update is always asked for |
| `MappingStore.MappedAgent.ClearMappingsWithAgent` | src/igs_mapping.c:295-317 | what is left are the elements to other agents, told by their indices in order; the splits stay, and the send flag is set when something was removed |
| `MappingStore.MappedAgent.RemoveFromInput` | src/igs_mapping.c:328-337 | the loop prints after each removal, which resets the cursor it walks with; it still ends, drops exactly the elements of the input and keeps the rest in order |
| `MappingStore.MappedAgent.ClearMappingsForInput` | src/igs_mapping.c:319-341 | the same for the elements from other inputs |
| `MappingStore.MappedAgent.MappingLoadStr` | src/igs_mapping.c:221-253 | succeeds exactly when the text parses; then the ids of elements and of splits are those of the text, a text with the current ids changes nothing, any other replaces the mapping, and the cache is current |
| `Constraints.AtoiPrintInt` | src/igs_parser.c:863-905 | an integer bound that is printed is read back |
| `Constraints.ParsePrinted` | src/igs_model.c:317-398 | a printed minimum, maximum or range of integers is parsed as the same constraint |
| `Constraints.PrintedWords` | src/igs_parser.c:863-905 | the words and brackets of the printed forms |
| `Constraints.ParseSpaced` | src/igs_model.c:353-366 | a range is read with any spaces around its comma, or none, and is refused upside down |
| `Constraints.RangeMatched` | src/igs_model.c:323 | only a bracket, a number, spaces, a comma, spaces, a number and a bracket are read as a range |
| `Constraints.ParseSpacedExamples` | src/igs_model.c:353-366 | "[0,10]" and "[10,0]" |
| `DefinitionText.ExportDefinition` | src/igs_parser.c:816-1175 | each of the three exports makes the generator calls of its tree, section by section in list order |
| `DefinitionText.ExportIos` | src/igs_parser.c:848-925 | the loop over an ordered name list prints the entries of the table in that order |
| `DefinitionText.ExportServices` | src/igs_parser.c:1082-1170 | services with their arguments and replies in list order |
| `DefinitionTokens.DefinitionTokens` | src/igs_parser.c:816-822 | everything stands under one key |
| `DefinitionTokens.DefinitionKeys` | src/igs_parser.c:816-1691 | the keys of the three forms, and which list stands under which |
| `DefinitionTokens.HeaderTokens` | src/igs_parser.c:816-846 | what is printed of the definition itself; the third form has no class and no package |
| `DefinitionTokens.IoTokens` | src/igs_parser.c:848-925 | the keys and texts of an input, output or attribute; name and type alone in the third form |
| `DefinitionTokens.ServiceTokens` | src/igs_parser.c:1082-1170 | the keys and texts of a service |
| `DefinitionTokens.ReplyTokens` | src/igs_parser.c:1125-1160 | the keys and texts of a reply |
| `DefinitionTokens.ArgTokens` | src/igs_parser.c:1097-1121 | the keys and texts of an argument; only the current form has its description |
| `DefinitionTokens.TypeNames` | src/igs_parser.c:55-113 | the names of the value types |
| `DefinitionTokens.TypeReadIff` | src/igs_parser.c:55-78 | six names stand for their types, and every other text for the unknown type |
| `DefinitionTokens.FirstIoIsRead` | src/igs_parser.c:219-283 | of several items with one name the first is read |
| `DefinitionTokens.FirstServiceIsRead` | src/igs_parser.c:413-543 | so it is for services |
| `DefinitionTokens.CurrentKeysFirst` | src/igs_parser.c:345-420 | "parameters" and "calls" count only when "attributes" and "services" are absent |
| `DefinitionText.ParseDefinition` | src/igs_parser.c:118-547 | the parsing loops build exactly the definition of ReadDefinition, and fail exactly when it does |
| `DefinitionText.ParseIos` | src/igs_parser.c:219-283 | an input whose name is known already is skipped |
| `DefinitionText.ParseReplies` | src/igs_parser.c:477-535 | a reply name that is known already is listed again, without a second entry |
| `DefinitionText.ParseServices` | src/igs_parser.c:413-543 | a service whose name is known already is skipped |
| `DefinitionText.LoadDefinition` | src/igs_parser.c:752-766 | a text gives a definition exactly when its root is a map that the parser accepts |
| `DefinitionText.LoadExported` | src/igs_parser.c:752-766 | loading the text of any of the three exports gives the definition without exactly what that form leaves out |
| `DefinitionRoundTrip.ReadExported` | src/igs_parser.c:1177-1691 | the trees of the three forms are read as the definition, as it without argument descriptions (v4), and as it without class, package, constraints, detailed types, specifications, descriptions of ios and arguments (v3); repeated reply names included |
| `DefinitionRoundTrip.CurrentKeepsAll` | src/igs_parser.c:816-1175 | the current form leaves nothing out |
| `DefinitionRoundTrip.RoundTrip` | src/igs_parser.c:118-547 | reading the current tree of a definition gives the same definition, lists in order, repeated reply names included |
| `DefinitionRoundTrip.WellFormedIsExportable` | src/igs_parser.c:852-855 | the assertions of the exports hold: every listed name is in its table |
| `DefinitionRoundTrip.TypeNameReadBack` | src/igs_parser.c:55-113 | each type name is read as its type |
| `DefinitionParsed.ParsedOk` | src/igs_parser.c:118-547 | whatever is parsed is a definition that exports and parser agree on: names of inputs, outputs, attributes and services once, tables equal to their lists, texts cleaned |
| `DefinitionParsed.ParsePrintParse` | src/igs_parser.c:118-547 | for every parsed definition, printing it in any of the three forms and parsing that keeps exactly what the form keeps; the current form keeps all |
| `DefinitionParsed.RepliesOnceIff` | src/igs_parser.c:477-535 | every reply is listed once exactly when within each service item that is kept the cleaned names of its replies are different |
| `DefinitionParsed.ParsedRepliesOnceIff` | src/igs_parser.c:413-543 | the same for a whole tree, by its services or, without them, its calls |
| `DefinitionParsed.RepeatedReplyLost` | src/igs_parser.c:531-532 | of two replies with one name the second is lost and the name is listed twice |
| `DefinedAgents.RemoveUndoesCreate` | src/igs_definition.c:478-614 | creating and then removing an input, output or attribute leaves the whole definition as it was |
| `DefinedAgents.SectionLaws` | src/igs_definition.c:104-119 | a change of one section can be read back and leaves the other two alone |
| `DefinedAgents.ParsedSectionsOk` | src/igs_parser.c:118-547 | whatever is parsed can be exported |
| `DefinedAgents.DefinedAgent.IoCreate` | src/igs_definition.c:77-166 | creating works exactly for a new name and a type from 0 to 6; by kind, only the inputs, the outputs or the attributes change: the name is listed last, with an entry of the type of that number, and all other entries stay; the three cached texts stay current |
| `DefinedAgents.DefinedAgent.IoRemove` | src/igs_definition.c:547-614 | removing works exactly for a known name; by kind, only the inputs, the outputs or the attributes change: the name is cut from the list, its entry is gone, and all others stay |
| `DefinedAgents.DefinedAgent.LoadStr` | src/igs_parser.c:1788-1810 | a text that does not parse changes nothing; one that does replaces the definition, with the same guarantees |
| `DefinedAgents.DefinedAgent.UpdateJson` | src/igs_definition.c:247-265 | the three cached texts become the exports of the current definition |
| `NetworkProofs.NextKeeps` | src/igs_network.c:698-2956 | every step keeps that the log of notices replays to the tables of peers and agents, that every agent belongs to a known peer and lists each filter once, and that every pair of a local and a remote agent is covered or has a flag set |
| `NetworkProofs.EveryRun` | src/igs_network.c:698-2956 | so in every reachable state: each agent is told of as entered, updated any number of times and exited, repeatedly, and all agents of a peer have exited before the peer does |
| `NetworkProofs.TwoTicksCover` | src/igs_network.c:2857-2956 | a run that ends with a definition tick and a mapping tick over all local agents leaves every link that reaches a named output and an input with its filter, once |
| `NetworkProofs.QuietAgentIsCovered` | src/igs_network.c:2857-2956 | in every run, once the definition and then the mapping of a local agent have been announced, and until that agent is changed, it is covered for every remote agent, whatever other steps come in between |
| `NetworkProofs.PresentIffLargestSum` | src/igs_network.c:717-2825 | a peer is present with reconnected = k exactly when the largest number of its enters minus exits over all ends of the run is k + 1 |
| `NetworkProofs.ConfigureCovers` | src/igs_network.c:445-491 | configuring a pair covers it and removes no filter |
| `NetworkProofs.LongestOutputIsCut` | src/igs_network.c:421-423 | the filter of an output name of the maximal length lacks its last character |
| `NetworkProofs.FilterIsPrefix` | src/igs_network.c:421-423 | a filter always begins the publication id, which is what ZeroMQ matches; it is all of "uuid-output" exactly when that is shorter than the buffer |
| `NetworkProofs.NamelessOutputSkipped` | src/igs_network.c:420 | configuring never adds the filter of an output without a name |
| `NetworkHistory.RemoteIsLast` | src/igs_network.c:1117-1144 | in every run, name and outputs of a remote agent are those of the last definition that came for it |
| `NetworkHistory.RemoteThereIff` | src/igs_network.c:975-1144 | the remote agents are exactly those with a definition and no exit since |
| `NetworkHistory.RemotePeerIsFirst` | src/igs_network.c:1117-1133 | the peer of a remote agent is the sender of the first definition since it was last unknown |
| `NetworkHistory.HasMappingIsLast` | src/igs_network.c:1231-1304 | whether it has a mapping is what the last mapping message said while it was known |
| `NetworkHistory.MappingIsLast` | src/igs_network.c:1354-1406 | in every run, the mapping of a local agent is the last one that was loaded, set or activated for it |
| `NetworkHistory.InputsAreLast` | src/igs_network.c:1305-1353 | so are its inputs |
| `NetworkHistory.UntouchedIsThatOfTheStart` | src/igs_network.c:1305-1406 | without any such step they are those of the start |
| `NetworkHistory.LocalThereIff` | src/igs_network.c:1305-1406 | the local agents are exactly those that were there or have been activated, and not deactivated since |
| `NetworkHistory.EveryFilterHasReason` | src/igs_network.c:414-491 | in every run, each filter of a remote agent was asked for, in some state of the run, by a link of a local agent to a named output of its definition then |
| `NetworkHistory.ConfigureFilters` | src/igs_network.c:414-491 | configuring a pair adds exactly the filters that its links ask for: uuid, dash and output, cut at 1056 characters, for the name of the agent or "*", an output it has and an input that is there |
| `NetworkHistory.CoveredIff` | src/igs_network.c:445-491 | a pair is covered exactly when every filter asked for is there |
| `NetworkHistory.MappingSent` | src/igs_network.c:2914-2956 | the part of a mapping tick for an agent with its mapping flag set clears that flag and adds exactly the filters that its links ask for; without the flag nothing changes |
| `NetworkLoop.Context.OnEnter` | src/igs_network.c:717-850 | a peer that is not known is stored and told of, one that is known counts one reconnection more; one step of a run, and the invariant holds |
| `NetworkLoop.Context.OnExit` | src/igs_network.c:2788-2825 | with callbacks after every agent: the invariant holds; an exit after a reconnection only takes one from the counter; any other removes the peer with exactly its agents and tells of the agents in the order of the walk and then of the peer |
| `NetworkLoop.Context.OnAgentExit` | src/igs_network.c:975-995 | the agent is gone and told of if it was known; one step of a run, and the invariant holds |
| `NetworkLoop.Context.Subscribe` | src/igs_network.c:414-443 | a filter is registered when its output has a name and the filter is not there yet |
| `NetworkLoop.Context.ConfigureMapping` | src/igs_network.c:445-491 | the loop over the mapping adds exactly the filters that its links ask for, and changes nothing else |
| `NetworkLoop.Context.OnExternalDefinition` | src/igs_network.c:1090-1217 | without a definition nothing changes; with one, the agent is known under its new name and outputs, with the sender as peer if it is new and its old peer otherwise, has just the filters it had and those that some local agent asks for, and is told of as entered or updated; one step of a run, and the invariant holds |
| `NetworkLoop.Context.OnExternalMapping` | src/igs_network.c:1231-1304 | a known agent has a mapping or none from then on, and is told of as updated, unless the mapping cannot be parsed or there was none to be dropped; one step of a run, and the invariant holds |
| `NetworkLoop.Context.OnLoadDefinition` | src/igs_network.c:1305-1353 | the inputs of a known local agent are replaced, its definition flag is set, and every remote agent has the filters it had and those asked for now; one step of a run, and the invariant holds |
| `NetworkLoop.Context.OnLoadMapping` | src/igs_network.c:1354-1406 | the mapping of a known local agent is replaced, its mapping flag is set, and every remote agent has the filters it had and those asked for now; one step of a run, and the invariant holds |
| `NetworkLoop.Context.OnDefinitionTick` | src/igs_network.c:2857-2910 | with callbacks after every agent: the invariant holds, and every agent of the walk is announced, unless the walk met one that a callback had taken away |
| `NetworkLoop.Context.PassFlagOn` | src/igs_network.c:2861-2895 | an agent whose definition flag is set loses it and has its mapping flag set; any other stays as it was |
| `NetworkLoop.Context.OnMappingTick` | src/igs_network.c:2914-2956 | with callbacks after every agent: the invariant holds, and every agent of the walk is announced |
| `NetworkLoop.Context.Release` | src/igs_network.c:2894-2901 | the calls that the application makes while the lock is released are the next steps of the run |
| `Delivery.LocalAgents.Deliver` | src/igs_network.c:228-288 | while callbacks create and destroy agents, change mappings and inputs and move cursors, each agent is processed at most once, by one walk over the mapping it has when its turn comes, one walk after the other; one that is there throughout is processed, and so are those there at the end; a walk that nobody disturbs writes exactly the inputs linked when it began; the loop ends when finitely many agents show up and finitely many callbacks change a mapping or move a cursor |
| `Delivery.LocalAgents.WriteInputs` | src/igs_network.c:244-278 | the walk with the cursor of the list, which callbacks change and move, makes exactly the writes of the walk specified |
| `Delivery.RoundIs` | src/igs_network.c:244-278 | one round: what is linked is written; after an accepted write the walk goes on behind wherever callbacks left the cursor, at the head when they left none, and nowhere when the agent is gone |
| `Delivery.ExactIff` | src/igs_network.c:244-278 | whatever callbacks do to the mapping, the inputs and the cursor: a walk that ends has written exactly the inputs linked at its start, in order, if and only if after every write the next linked element is the next one expected |
| `Delivery.ExactIffNeverMovedAway` | src/igs_network.c:244-278 | when callbacks leave mapping and inputs alone and no triple is mapped twice, that is so if and only if each of them leaves the cursor at a place from which the walk goes on as without it |
| `Delivery.UnchangedTodoIsExact` | src/igs_network.c:244-278 | a walk is exact when no callback changes what is still to be written |
| `Delivery.ElementHasOneTurn` | src/igs_network.c:244-278 | however the mapping around it is changed, an element that callbacks neither take away before its turn nor put ahead again has its turn exactly once in a walk that ends |
| `Delivery.TurnWrites` | src/igs_network.c:247-278 | in its turn the input of an element is written exactly if it is linked to the output and defined then |
| `Delivery.UndisturbedIsExact` | src/igs_network.c:244-278 | a walk is exact when after each release the agent is there with the same mapping, inputs and cursor |
| `Delivery.UnsetCursorNeverEnds` | src/igs_network.c:244-278 | when every callback leaves the list without a cursor, the first linked input is written once for each release and no walk, however long, is over |
| `Delivery.OneLinkNeverEnds` | src/igs_network.c:244-278 | such a walk over a mapping of one element: it writes in every round |
| `Delivery.TargetsAreTheWanted` | src/igs_network.c:247-253 | an input is written exactly when the definition has it and the mapping links it to the output of that agent name |
| `Delivery.TargetsInOrder` | src/igs_network.c:244-280 | inputs are written in the order of the mapping elements |
| `Delivery.NoTargetTwice` | src/igs_network.c:244-278 | no input is written twice when no triple is mapped twice |
| `Delivery.LocalAgents.NextAgent` | src/igs_network.c:282-285 | the next agent is the first of the table that has not been contacted, and there is none only when all have |
| `Elections.StepKeeps` | src/igs_network.c:4713-4823 | every join, leave, start and stop keeps that agents and elections list each other, that no list is empty or has a duplicate, and that the groups of a live node are the private channel and the elections in the table |
| `Elections.EveryRun` | src/igs_network.c:4713-4823 | so does every run |
| `Elections.RunMembers` | src/igs_network.c:4713-4823 | after any run an agent is listed in an election exactly when its last word about it was a join |
| `Elections.JoinWorksIff` | src/igs_network.c:4718-4747 | a join fails exactly for the reserved name, a name too long, or an agent that takes part already |
| `Elections.LeaveWorksIff` | src/igs_network.c:4766-4800 | after any run, a leave fails exactly for an agent that takes part somewhere, when nobody takes part in that election |
| `Elections.GroupJoinedIff` | src/igs_network.c:3264-3275 | the node is in the group of an election exactly when it is live and some agent takes part |
| `Elections.OnlyElectionGroups` | src/igs_network.c:3264-3275 | a live node is in no other group but the private channel |
| `Elections.LeaveUndoesJoin` | src/igs_network.c:4766-4823 | joining and leaving at once restores both tables and the groups |
| `Elections.ElectionContext.Start` | src/igs_network.c:3264-3275 | the loop over the keys joins the private channel and every election |
| `Elections.ElectionContext.ElectionJoin` | src/igs_network.c:4713-4764 | the call is the step Join and says whether it worked; then the agent is last in the list of the election and the election last in that of the agent, and no other list changes |
| `Elections.ElectionContext.ElectionLeave` | src/igs_network.c:4766-4823 | the call is the step Leave and says whether it worked |
| `Wire.Int32RoundTrip` | src/igs_network.c:3602-3606 | the four bytes of an int are read as that int |
| `Wire.Int32Memory` | src/igs_network.c:3602-3606 | the four bytes of an int: lowest first, two's complement |
| `Wire.Int64RoundTrip` | src/igs_network.c:3602-3606 | the eight bytes of a timestamp are read as that timestamp |
| `Publication.PublicationRoundTrip` | src/igs_network.c:3589-3705 | for every type, with a timestamp or not, the receiver finds the agent, the exact name, type and bytes, and the timestamp or none |
| `Publication.PublishedFrames` | src/igs_network.c:3589-3705 | the frames of a publication type by type: "1" to "6" with the bytes, "7" to "12" with bytes and timestamp packed, and nothing behind for the unknown type |
| `Publication.CurrentOutputsRoundTrip` | src/igs_network.c:1428-1475 | the reply with many outputs is read as all outputs but impulsions, in order, without timestamp, with "" and NULL identified |
| `Publication.ReplyReceived` | src/igs_network.c:1428-1504 | reading the reply gives one thing for each integer, double, string, bool and data output, in the order of their indices, with its name, type and bytes and no timestamp, and nothing for impulsions and unknown types |
| `Publication.InputEndsEqual` | src/igs_network.c:361-377 | model_write leaves an input of the same type equal to the published value, cut at a NUL inside a string, unless an enforced constraint is not met by it; then the input stays as it was |
| `Publication.CurrentInputEndsEqual` | src/igs_network.c:1480-1504 | so it does with a value from the reply, where the text "" arrives as NULL |
| `Publication.StampIsLeftOver` | src/igs_network.c:130-190 | a triple without timestamp is read with the timestamp in the last frame before it that has one, and without exactly when there is none or that one is the value for none |
| `Publication.MixedMessageExample` | src/igs_network.c:130-190 | of an output with timestamp 7 and one without, in one message, both are read with 7 |
| `Publication.CurrentOutputsHaveNoStamp` | src/igs_network.c:1428-1475 | the only message with several outputs that ingescape sends has no timestamp at all |
| `Publication.ReadAppend` | src/igs_network.c:134-316 | reading goes on behind what was read, triple by triple |
| `Publication.TripleIff` | src/igs_network.c:130-190 | a triple is rejected exactly for a type number out of range or a timestamped value that is no pair; otherwise its type is that of its number and its timestamp that of the pair or the one before |
| `Publication.TripleBytes` | src/igs_network.c:130-316 | received bytes are kept, but a string that does not end with NUL is cut at its first NUL and ended |
| `Publication.PublishOutput` | src/igs_network.c:3589-3705 | from the message built frame by frame the receiver makes the same uuid, name, type, bytes and timestamp |
| `Publication.AnswerCurrentOutputs` | src/igs_network.c:1428-1470 | the reply has three frames for each integer, double, string, bool and data output, in the order of their indices: name, type number and bytes, and none for the others |
| `Publication.HandlePublication` | src/igs_network.c:134-316 | the loop that pops three frames at a time reads what ReadFrom says, stops at the first triple that is rejected, and stops behind the first triple after which the remote agent is not there any more |
| `Publication.WhileThereIs` | src/igs_network.c:134-316 | nothing is read behind the first triple after which the remote agent is gone |
| `Publication.ReceivePublication` | src/igs_network.c:348-388 | an id of less than 32 characters is rejected, one of 32 has no name, and the uuid is the first 32 otherwise; whatever output was published is received as it was, also when the remote agent leaves meanwhile |
| `ServiceArgs.ArgList.Append` | src/igs_service.c:376-391 | the new argument is linked behind all others |
| `ServiceArgs.ArgList.AddValue` | src/igs_service.c:376-466 | igs_service_args_add_* append a nameless argument of the size of its value |
| `ServiceArgs.ArgList.DefineArg` | src/igs_service.c:566-627 | an argument of a service is appended unless its type is impulsion or unknown; it has the name, the type, no value yet, and the size of an int, double or bool or none |
| `ServiceArgs.ArgList.RemoveNamed` | src/igs_service.c:629-675 | exactly the first argument of that name is unlinked, if there is one |
| `ServiceArgs.ArgList.Clone` | src/igs_service.c:333-374 | the clone is a list of new nodes with the same names, sizes and values in order, strings cut at a NUL inside, and no descriptions |
| `ServiceArgs.WithoutArgAt` | src/igs_service.c:646-670 | what the removal drops is the first argument with the name |
| `ServiceArgs.RemoveUndoesAdd` | src/igs_service.c:566-675 | adding an argument with a new name and removing that name restores the list |
| `ServiceCall.CallRoundTrip` | src/igs_service.c:1132-1172 | when the types match the definition, all values arrive in order under the defined names with the timestamp of the caller or none; only the size of a bool differs |
| `ServiceCall.FrameIs` | src/igs_service.c:1132-1172 | the frames by type: a bool goes as the four bytes of an int, a text with its NUL |
| `ServiceCall.ArrivedAsSent` | src/igs_service.c:1132-1172 | each argument arrives with the name in the definition and the value that was sent |
| `ServiceCall.RefusedIff` | src/igs_network.c:2562-2612 | a call is refused exactly when the arguments and the timestamp together are fewer than the defined arguments: one missing argument goes unnoticed when timestamps are enabled |
| `ServiceCall.OutcomeIff` | src/igs_network.c:2562-2612 | which outcome any frames have, by their number and lengths |
| `ServiceCall.ReadByType` | src/igs_service.c:173-238 | the value that is read of a frame, by the type in the definition |
| `ServiceCall.StampTakenForArgument` | src/igs_network.c:2579-2580 | then the last argument is read from the timestamp, and the callback sees no timestamp |
| `ServiceCall.ExtraNoticedIff` | src/igs_network.c:2567-2590 | arguments too many are noticed exactly when the first of them does not take 8 bytes |
| `ServiceCall.RemoteAgreesWithLocalIff` | src/igs_service.c:1193-1215 | a call over the network and one inside the process are accepted alike, exactly unless 8 bytes are taken for a timestamp or an argument |
| `ServiceCall.CloneCallsTheSame` | src/igs_service.c:333-374 | a cloned list makes the same message |
| `ServiceCall.MakeCall` | src/igs_service.c:1132-1172 | the loop over the list adds one frame for each argument and one for a timestamp |
| `ServiceCall.MakeValues` | src/igs_service.c:173-238 | with enough frames each defined argument is read from its frame and the rest is left; with too few it fails and leaves an empty list; a frame shorter than its argument is told apart |
| `ServiceCall.HandleCall` | src/igs_network.c:2562-2612 | counting, reading and looking for a timestamp come to the outcome that Handled says |
| `ModelWrite.WrittenIo.ModelWrite` | src/igs_model.c:909-1376 | a write fails exactly when the constraint or the conversion forbids it, and then changes neither value nor size; otherwise the io keeps its type and holds the converted value with its size, which the lemmas below tell by source and target type |
| `ModelWrite.IntegerWritten` | src/igs_model.c:1107-1145 | an integer n is a bool as n != 0, a double as the C conversion, a string as its decimal text, data as its own four bytes |
| `ModelWrite.DoubleWritten` | src/igs_model.c:1146-1184 | a double is a bool unless it is zero, an integer as the C conversion, a string as printed, at most 255 characters, data as its own eight bytes |
| `ModelWrite.BoolWritten` | src/igs_model.c:1185-1222 | a bool is 1 or 0 as a number and as a text, and data as its one byte |
| `ModelWrite.StringWritten` | src/igs_model.c:1223-1274 | a text is a number as atoi and atof say, a bool by its three spellings of true and of false and as atoi says otherwise, data as the bytes of its hexadecimal digits, or with its NUL when it is anything else |
| `ModelWrite.DataWritten` | src/igs_model.c:1310-1374 | data is taken as it is where it has the size of a number or bool, ends with NUL for a string, or goes to data, and is refused otherwise |
| `ModelWrite.NothingWritten` | src/igs_model.c:1070-1104 | NULL or no size makes zero, false, NULL or no data |
| `ModelWrite.OthersWritten` | src/igs_model.c:1275-1309 | an impulsion makes the same; a value of unknown type changes nothing |
| `ModelWrite.IntegerAllowedIff` | src/igs_model.c:927-975 | with bounds on an integer, a write is allowed exactly when the number seen by the check is not below the minimum and not above the maximum, bounds included |
| `ModelWrite.DoubleAllowedIff` | src/igs_model.c:976-1027 | so it is for bounds on a double |
| `ModelWrite.TextAllowedIff` | src/igs_model.c:1028-1064 | with an expression, exactly when the text seen by the check matches |
| `ModelWrite.TextMeetsIff` | src/igs_model.c:1028-1064 | a stored text meets an expression exactly when it matches; NULL never does |
| `ModelWrite.IntegerStoredIff` | src/igs_model.c:927-975 | an integer is stored exactly when it is within the bounds, and the old one stays otherwise |
| `ModelWrite.ConvertedKeeps` | src/igs_model.c:1067-1374 | a write keeps the type of the io, and its string terminated |
| `ModelWrite.EnforcedIff` | src/igs_model.c:927-1060 | with a constraint enforced, the stored value meets it after every successful write from integers, doubles, strings and empty values, and from data for numbers; for the other sources exactly when StaysWithin, which looks at the source value |
| `ModelWrite.ImpulsionBreaksConstraint` | src/igs_model.c:1288-1297 | an impulsion with a value passes the check by that value and stores 0 |
| `ModelWrite.DataBreaksTextConstraint` | src/igs_model.c:1035-1048 | data for a string falls through to the case of integers: the expression is matched with the number of its first four bytes, so some constraint is broken unless the text is that number |
| `ModelWrite.AbcBreaksTextConstraint` | src/igs_model.c:1035-1048 | the text "abc" given as data breaks such a constraint |
| `ModelWrite.BoolCheckReadsOn` | src/igs_model.c:944-946 | the check of a constraint reads four bytes of a bool: the same bool is allowed or not by what lies behind it |
| `ModelWrite.SizeIsThatOfTheTextIff` | src/igs_model.c:1347-1357 | the size of a string is its length and one, exactly unless the string was written from data with a NUL before its end |
| `ModelWrite.SameTypeCopies` | src/igs_model.c:1067-1374 | an io that is written the bytes of a value of its own type holds that value, cut at a NUL inside a string |
| `ModelWrite.OwnBytesAllowedIff` | src/igs_model.c:927-1060 | for a value written with its own type, the constraint allows the write exactly when the value meets it |
| `ModelWrite.StringToBytes` | src/igs_model.c:801-827 | the loop decodes exactly the texts of hexadecimal digits of even length, at least two |
| `ModelWrite.HexRoundTrip` | src/igs_model.c:801-827 | bytes written in hexadecimal are decoded as themselves |
| `CommandLine.LineRoundTrip` | src/igs_network.c:4428-4490 | splitting at single unquoted spaces and undoubling quotes recovers the path and every argument, empty ones included |
| `CommandLine.LineIsUnambiguous` | src/igs_network.c:4428-4490 | different paths or arguments have different command lines |
| `CommandLine.BareIff` | src/igs_network.c:4428-4478 | a word is left bare exactly when it has neither a space nor a quote; any other stands in quotes |
| `CommandLine.LongestPrefixIsKept` | src/igs_network.c:4480-4488 | the command line is the exact form of the path and a prefix of the arguments; for a path that fits the buffer it is the longest prefix that fits with its terminator |
| `CommandLine.FitsIffPathDoes` | src/igs_network.c:4406-4490 | the command line fits the buffer with its terminator unless the path alone is as long as the buffer, and then it is that path |
| `CommandLine.FullPathExample` | src/igs_network.c:4406-4411 | such a path is accepted |
| `CommandLine.FormatArg` | src/igs_network.c:4461-4478 | the loop over the quotes computes the quoted form, and its writes stay in the buffer exactly when that form fits with its terminator |
| `CommandLine.LongArgumentExample` | src/igs_network.c:4461-4478 | an argument that does not fit |
| `CommandLine.QuotePath` | src/igs_network.c:4428-4456 | the checks on the way fail exactly when the quoted path does not fit in the end; the writes stay in the buffer exactly when no part that passes the check fills it up, or the path is given back at once |
| `CommandLine.FullBufferExample` | src/igs_network.c:4438-4446 | a path that fits but has a part that fills the buffer up |
| `CommandLine.SetCommandLine` | src/igs_network.c:4376-4496 | the loop over the arguments computes the command line, or leaves it as it was when the path is refused; its writes stay in the buffers exactly when the path is refused at once or shorter than the buffer and those of its parts do, and the first argument left out, if any, fits its own |
| `MappedInputs.CoveredInputFollows` | src/igs_network.c:112-491 | for a covered pair, a publication of a linked output passes a filter, is read with its name, value and timestamp, has the linked input written, and leaves an input of the same type equal to the output, unless an enforced constraint is not met; then the input is as it was |
| `MappedInputs.EveryLinkWorks` | src/igs_network.c:2857-2956 | in every run, once the definition and then the mapping of an agent have been announced, this is so for each of its links until the agent is changed |

## Left out

- CStrings.CleanString: bounds above 2^63 - 1 and strings longer than that are not modelled.
- Constraints.ParsePrinted: integer bounds only; doubles are printed with six decimals, which loses digits, and regular expressions are foreign. Overflow in atoi is undefined in C and not modelled.
- MappingText.ParseMapping: a number other than 0 or a map that is not empty in the place of the mappings or splits makes C take a double or an address for the length of an array; such documents have no reading and are excluded (`Readable`).
- NetworkLoop.Context.OnMappingTick: an agent that is taken away while a mapping tick walks is still configured once more in C; the model passes it over. What callbacks do to the agents is given as calls that change a mapping or a definition, activate or deactivate; messages are handled by the one thread of the loop and never in between.
- DefinitionText.ExportIos: constraints on doubles and strings are not part of the model, as for ParsePrinted.
- DefinitionText.ParseIos: the same.
- DefinitionParsed.ParsePrintParse: the same; a bound of a double loses digits when it is printed.
- Delivery.LocalAgents.Deliver: the remote agent is there throughout one triple; whether one is the same agent is decided by its uuid. The cursors of lists that are not being walked do not matter, because a walk sets its cursor first.
- Delivery.TargetsAreTheWanted: an element to agent "*" is subscribed to but never delivered, because delivery compares names exactly; only the subscription side takes "*" into account.
- Publication.HandlePublication: frozen and muted agents, who publish nothing, are left out.
- Publication.ReceivePublication: an id of exactly 32 characters makes the C code read behind the string; that outcome is only named (`OutOfBounds`), as is a timestamp frame of less than 8 bytes (`OverRead`).
- ServiceCall.HandleCall: what is read past the end of a frame that is too short is not modelled; that outcome is only named (`OverRead`). Matching of the callee by name, tokens and undefined services are left out.
- ModelWrite.WrittenIo.ModelWrite: the source value is the memory from its address on, as far as it is read; values that C leaves undefined (a number out of range in atoi or a cast) are excluded by the types of the parameters. Floating point is abstract: a double is its eight bytes, and conversions are parameters.
- CommandLine.SetCommandLine: where writes leave a buffer, the text is given as if the buffer went on. The path is taken to be a terminated text where it is read.
- Elections.StepKeeps: destroying an agent does not leave its elections in C and is not a step; groups that an application joins by itself are not in the set; the notices about won and lost elections are left out.
- Definitions: initial values, callbacks and muting of ios, setters of single fields of a definition, and changes of services and their replies. After a failed replacement of a constraint the old one is gone while the cached text still shows it; that call is not modelled.
- JSON: lexing, number formatting and escapes of YAJL; texts are token streams. Number values are integers or opaque doubles; the double field of an integer node is not copied by a dup and is not compared. Insertion by path (igs_json_node_insert2) and array indices in paths.
- Network: sockets, security, protocol versions, splitters and workers, the request for current outputs and its timer, proxies and brokers, state, mute and log messages, channels. The list of subscriptions inside a ZeroMQ socket is represented by the filter list of each remote agent.
- Balance of the locks: some early returns of the C code keep a lock, so nothing is claimed.
- Getters, API wrappers, files, logging, monitoring, replay and performance counters.
