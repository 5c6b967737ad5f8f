# A verified model of fzdb's core

fzdb stores a graph of entities with uncertain properties. This project models the
parts of it where a mistake would lose or falsify data, and proves properties of
them for all inputs, all runs or all reachable states.

- **Links** (`Paths`, `LinkGraph`, `LinkCalls`): LINK and UNLINK keep a symmetric table of
  neighbours and, on every entity, a cached Master/Slave/None status that must agree
  with the connected components of that table.
- **Hierarchy** (`Hierarchy`, `Matching`, `ResultBuffer`, `ReloadedTree`): subsetOf (key 3) and supersetOf (key 4)
  mirror each other on insert; a match walks up and down that tree and divides
  confidences on the way.
- **Value lists** (`Sorting`, `Properties`): confidence-sorted, renumbered lists.
- **Approximate match** (`Levenshtein`): the one-column edit distance.
- **Query text** (`Tokenizer`, `TripleParser`, `Grammar`, `BlockParsers`): from characters
  to pieces, from tokens to triples, filters, META variables and NEW entities, and exactly
  which token lists are a block.
- **Result table** (`ResultTable`): the filter loop with swap-with-last erase.
- **Data file** (`Bytes`, `Directory`, `Listings`, `LinkTable`, `PrimitiveMap`,
  `NameTable`, `MemberCodec`, `Records`, `Reload`, `RecordStreams`, `Entities`,
  `GraphFile`, `DataFile`, `DeepReload`, `Damage`): every byte of the file, as written
  through the back-patching serialiser and as read through all of its bounds checks; what
  comes back of a value with all its metadata, and what is refused whoever wrote it.
- **The database** (`Stability`, `Persistence`, `Merging`, `MergedLists`, `Edits`,
  `Insertions`, `Registry`, `Runs`, `MirroredRuns`, `FirstSave`, `Removals`,
  `EntityManagers`, `Startup`, `Losses`): what each call does to which list, name and
  code; memory and file in agreement over runs of LINK, UNLINK, MERGE and INSERT,
  completed or aborted at any point, and the hierarchy whole after each of them; what an
  INSERT may add for that, and what holds before there is a file.

`dafny verify dfyconfig.toml` checks all of it.

## How the pieces fit

Where the source changes state step by step, there is a method or a class with that
state (`BlockParser`, `VariableSet`, `EntityProperty`, `Serialiser`, `EntityManager`,
the array of `LevenshteinDistance`), proved equal to a specification function. The
theorems are then about that function. A byte format has three parts: `Encode…`, the
layout in closed form; `Serialise`, the method that appends blank headers and patches
them, proved to append exactly that layout; and `Decode…`/`Unserialise`, the reader
with its checks in the source's order. A reader returns `Ok`, `Err(Rejected)` where
the source throws, and `Err(Fatal)` where it asserts or reads past the memory it was
given.

The main chain ends in `Runs.RunStaysInStep`: encoders and decoders invert section by
section (`LinksReadBack`, `MapReadsBack`, `NamesReadBack`, `EntityReadsBack`,
`GraphReadsBack`), the file envelope inverts (`FileReadsBack`), a reloaded graph is a
fixed point (`ReloadSettles`), so the handler that loads the file after an exception
restores what was in memory (`RecoveryRestores`), and what LINK, UNLINK and MERGE
complete survives the file (`LinkKeepsValid`, `UnlinkKeepsValid`, `MergeKeeps`), as does
what INSERT completes exactly under a condition on each edit (`EditKeepsReadyIff`,
`EditIsKeptIff`, `LastEditDecides`). `Startup.SavedPairIsInStep` exhibits a database, two entities
created, linked and saved, that meets every hypothesis of that chain.

What the calls do is stated apart from how they do it. LINK and UNLINK are judged by the
neighbours of any entity afterwards (`LinkDoes`, `UnlinkDoes`), MERGE by every list of
every entity (`MergeGathers`, `MergeGathersRelations`) and by when it completes
(`MergeCompletesIff`), the edits of an INSERT by the one list they add to and by when they
go through (`PutAdds`, `PutRelates`, `AnnotateAdds`), NEW by the entity it leaves
(`CreateLeaves`), a new property by its id and code (`DeclareRecords`), and the handler by
the bytes of the file it finds (`ThrowWithoutFileIff`, `ThrowWithFile`). A list of tokens is
a block if its tokens have places in a grammar, and the parser accepts exactly those
(`ParsesIffBlock`).

The same handler is what keeps the hierarchy whole: an insert that throws between the two
halves of a relation leaves a parent that does not list its child
(`InsertKeepsMirrorIff`), and undoing the call takes that half back, so that over every
run of LINK, UNLINK and INSERT the mirror holds after each call (`RunStaysMirrored`).

## Where the code does less than it promises

Each of these is kept as the code has it. Where something is promised, the exact
condition under which it holds is proved, and so is an input for which it does not.

- Saving and loading does not always return an equal graph. Released name ids are
  written but not read, value ids are renumbered, lists are sorted again, the moment of a
  time stamp is not stored, and of several type values one remains. `GraphRoundTripIff`
  says exactly when a graph survives; `ReloadSettles` says that after one save and load
  it always does. LINK, UNLINK and MERGE keep a surviving graph surviving; DELETE of a
  value does so exactly for the last of its list (`DeletionSurvivesIff`,
  `RemovalIsNotKept`).
- INSERT keeps it surviving under a condition on each edit (`EditKeepsReadyIff`): the
  reader knows the type of what is added, which under subsetOf and supersetOf is an
  entity reference proper, no moment of a time stamp is added, and a confidence that
  replaces another keeps the value in its place. Two kinds of INSERT that complete lose
  the whole database, because the reader rejects the file they are saved to and the
  handler then resets everything (`EditLoadsIff`, `RecoveryAfterEdit`): one that puts the
  reference to a property or to a value that a variable holds (`PropertyReferenceLoses`),
  and one that puts a source reference under subsetOf or supersetOf
  (`SourceReferenceLoses`). Two more are loaded, but not equal (`EditIsKeptIff`): of a time
  stamp the moment is gone (`TimeStampDiffers`), and a value whose confidence was lowered
  below that of the next comes back in another place (`ConfidenceDiffers`).
- The kind of a property is not stored, so a reloaded subsetOf list accepts a second
  parent: `OneParentIff`, `ReloadedParentsPileUp`. `memberwiseEqual` does not notice,
  because it does not compare kinds. For the same reason a match inherited from a
  reloaded value keeps its full confidence: `InheritedConfidence`.
- A property table whose last property holds no value is rejected on load
  (`OwnerReadsBack`), and the handler then resets the whole database
  (`UnloadableResets`). INSERT and MERGE never leave an empty list
  (`EditKeepsReadyIff`, `MergeKeepsMergeable`), and DELETE drops a list with its last value.
- UNLINK does not undo LINK when an end had nothing but a link to itself:
  `UnlinkUndoesLink`, `LoneLoopIsLost`.
- Until a file has been saved, or when it cannot be read, a call that throws is not undone:
  memory keeps what the call had made of it (`ThrowWithoutFileIff`, `RequestWithoutFile`),
  and the first save makes that durable (`RunFromNoFile`).
- MERGE of an entity with itself erases it (`MergeLeavesRest`), and MERGE leaves the link
  table pointing at the erased entity: `MergeKeepsLinksIff`, `MergedPairBreaksLinks`.
- A supersetOf insert whose second half throws gives the child a parent that does not
  list it: `InsertKeepsMirrorIff`. It throws when the holder is locked
  (`LockedHolderOrphans`), and when it lists its children by references of the other type
  (`SourceReferenceOrphans`). Within an INSERT it is undone (`RunStaysMirrored`).
- The buffer of a match has one slot per value. Some search overruns it exactly when
  the entity of one value lies above that of another: `StaysInsideIff`,
  `ChainOverruns`. Even when none does, a match from two levels up is shared out by the
  children of the first value's entity, whichever value matched, and a lookup or the
  division fails if there are none: `ReturnsIff`, `ChainThrows`.
- A word that merely starts with NEW or FILTER and holds no closing parenthesis
  swallows what follows (`WordIsWellFormedIff`, `KeywordSwallows`); a bracket inside
  quotes or a quote inside brackets leaks its flag (`QuotedIsWellFormedIff`,
  `BracketedIsWellFormedIff`); a structural character is recorded one column early
  (`PiecesCoverTheInput`).
- A filter, a NEW clause or a META head that is continued by `;` or `,` becomes the
  subject of what follows, with the type of the former one, so that a variable subject
  may go unlisted: `SubjectsRecordedIff` says for which tokens, `HeadLeavesAStaleSubject`
  what one such clause does, `StaleSubjectIsMissed` gives inputs. Tokens behind a complete
  triple are skipped (`JunkBehindABlockIsSkipped`).
- The edit distance of two empty strings is read from a cell that was never written;
  no contract promises anything about it.

## Model

| member | source | states |
|---|---|---|
| `LinkGraph.GetLinkGraph` | src/model/entity_manager.cc:641-660 | started with nothing visited, the recursive search ends and returns exactly the handles reachable from the start; it fails if and only if something reachable has no entry in the table |
| `LinkGraph.LinkKeepsValid` | src/model/entity_manager.cc:666-694 | LINK of two live entities keeps the table symmetric, closed and free of empty entries, and every status equal to what the components demand |
| `LinkGraph.LinkJoinsComponents` | src/model/entity_manager.cc:666-694 | after LINK the component of one end is the union of the two former components |
| `LinkGraph.UnlinkKeepsValid` | src/model/entity_manager.cc:696-748 | UNLINK keeps the same invariant, whether the edge was a bridge, one of several paths, a self-link or absent |
| `LinkGraph.RunKeepsValid` | src/model/entity_manager.cc:666-748 | the invariant holds after every sequence of LINK and UNLINK calls, failing ones included |
| `LinkGraph.OneMasterPerComponent` | src/model/entity_manager.cc:666-748 | an entity has status None exactly when it has no entry; otherwise its component has one Master, the lowest handle, and all its other members are Slaves |
| `LinkGraph.UnlinkUndoesLink` | src/model/entity_manager.cc:666-748 | LINK then UNLINK restores table and statuses if and only if the edge was absent and, for distinct ends, neither end was linked to itself alone |
| `LinkGraph.LoneLoopIsLost` | src/model/entity_manager.cc:717-742 | a reachable state where LINK then UNLINK of two distinct unlinked entities does not restore the table |
| `LinkCalls.LinkDoes` | src/model/entity_manager.cc:666-694 | LINK of two live entities is saved, adds each to the neighbours of the other, leaves every other entity's neighbours alone, and changes nothing else but statuses, which are those the components demand |
| `LinkCalls.UnlinkDoes` | src/model/entity_manager.cc:696-748 | UNLINK does nothing if they are no neighbours; otherwise it is saved, takes each from the neighbours of the other, leaves all others alone, and changes nothing else but statuses; a link of an end to itself goes with the last of its other links, and not before |
| `Hierarchy.InsertKeepsMirrorIff` | src/model/entity.cc:110-149 | on any store, built by inserts or loaded from a file, one subsetOf or supersetOf insert of any value, source references included, thrown or not, keeps "the parent of c lists c" unless it is a supersetOf insert whose mirrored half replaces the parent and whose own half throws, and then it does not; locks and kinds of lists never change |
| `Hierarchy.LockedHolderOrphans` | src/model/entity.cc:128-143 | the input where it does not: a supersetOf insert into a locked entity throws and leaves a child whose parent does not list it |
| `Hierarchy.SourceReferenceOrphans` | src/model/entity_property.cc:59-63 | the second such input: nobody is locked, and a supersetOf insert of a source reference into an entity that lists its children by entity references throws and leaves a child whose parent does not list it |
| `Hierarchy.RunKeepsMirrorIff` | src/model/entity.cc:110-149 | over every run of inserts of any values in either direction, the mirror holds before, between and after them if and only if no insert finds a store in which its mirrored half replaces a parent and its own half throws; then no lock or kind of list changes, and an entity without a reloaded list has at most one parent |
| `Hierarchy.RunKeepsMirror` | src/model/entity.cc:110-149 | a condition that can be read off the inserts: where children are listed by entity references, a run whose supersetOf inserts are of entity references, at most certain, into unlocked entities keeps every parent live and listing its child; subsetOf inserts may be of any kind, other entities may be locked, and any store may have come from a file |
| `ReloadedTree.ReloadKeepsTree` | src/model/property_owner_serialiser.cc:144-171 | saving and loading keeps every parent, every set of children and every lock, and the shape and the mirror that the two theorems above start from |
| `Matching.MirroredIsWalkable` | src/model/entity.cc:110-149 | with the mirror kept, an acyclic child relation makes the parent relation acyclic too, so the recursion in both directions ends |
| `Matching.MeetsCondition` | src/model/property_owner.cc:48-96 | the in-place method with its fixed result buffer agrees with the specified recursion, including where it runs past the buffer, looks up a missing entry or divides by zero |
| `Matching.MeetsObject` | src/model/property_owner.cc:48-104 | an entity is searched for by that recursion; anything else by copying, which never leaves the buffer and returns exactly the values that equal it, each as often as it is listed |
| `Matching.MeetsVerdict` | src/model/property_owner.cc:48-104 | for any number of values, a match that returns is non-empty if and only if some value names the queried entity, one below it (not from UpTree) or one above it (not from DownTree) |
| `Matching.OneValueMatch` | src/model/property_owner.cc:48-104 | one value yields at most one match and never a failure; there is one exactly when the entity is the value's, an ancestor or a descendant, as far as the state allows; on the entity itself or an ancestor of the value's it is the value unchanged |
| `Matching.ReasonsExclude` | src/model/property_owner.cc:52-94 | of the three writes to the buffer at most one can happen for a value: the hit, the one from below and the one from above exclude each other |
| `Matching.InheritedConfidence` | src/model/property_owner.cc:71-91 | asked k levels below the value's entity, which lists n children, the match carries confidence floor(c / n^k), and n is never zero; a reloaded value, whose confidence record is no longer single-valued, keeps c |
| `ResultBuffer.UnrelatedStayInside` | src/model/property_owner.cc:52-94 | when no value's entity lies above another's, no query ever writes past the buffer |
| `ResultBuffer.StaysInsideIff` | src/model/property_owner.cc:52-94 | no query in any state writes past the buffer if and only if no value's entity lies above another's; otherwise a query for some live entity does |
| `ResultBuffer.ReturnsIff` | src/model/property_owner.cc:82-95 | of such values a search returns normally if and only if it does not walk up, or matches nothing from two levels or more, or the entity of the first value lists a child; otherwise the lookup or the division for that entity fails |
| `ResultBuffer.AlwaysReturnsIff` | src/model/property_owner.cc:48-96 | for any values, every search returns normally if and only if both conditions hold |
| `ResultBuffer.ChainOverruns` | src/model/property_owner.cc:52-94 | the input for the overrun: values that name an entity and its child |
| `ResultBuffer.ChainThrows` | src/model/property_owner.cc:86-88 | the input for the failed lookup: two unrelated values, of which the second matches two levels up and the first lists no children |
| `Levenshtein.LevenshteinDistance` | src/filters/lev_filter.h:11-39 | the one-column loop over 32-bit words computes the recursive edit distance without overflow, unless both strings are empty |
| `Levenshtein.NextRow` | src/filters/lev_filter.h:22-35 | one pass turns the column of distances to a prefix into the column for the prefix with one more character, in place |
| `Levenshtein.Test` | src/filters/lev_filter.h:62-66 | the filter passes if and only if the distance is at most its limit, unless both texts are empty |
| `Levenshtein.DistanceIsLeastCost` | src/filters/lev_filter.h:11-39 | the distance is the cost of some edit script between the strings and of no cheaper one, scripts being a definition of their own |
| `Levenshtein.ZeroOnlyWhenEqual` | src/filters/lev_filter.h:11-39 | the distance is zero exactly for equal strings |
| `Levenshtein.Symmetric` | src/filters/lev_filter.h:11-39 | the distance does not depend on the order of its arguments |
| `Levenshtein.Triangle` | src/filters/lev_filter.h:11-39 | the triangle inequality |
| `Levenshtein.FiltersCompose` | src/filters/lev_filter.h:62-66 | a text that passes the filter for a at d1, where a passes the one for b at d2, passes the filter for b at d1 + d2, and b the filter for the text, wherever none of the three compares two empty texts |
| `Tokenizer.Tokenize` | src/parser.cc:117-203 | the character loop with its buffer, flags and counter yields the specified pieces |
| `Tokenizer.PiecesCoverTheInput` | src/parser.cc:117-203 | the pieces are non-empty, stand in the input where their position says (structural ones one earlier) and concatenate to the input without its unprotected white space |
| `Tokenizer.TokenizingKeepsNonSpace` | src/parser.cc:117-203 | no character other than white space is lost, added or moved |
| `Tokenizer.PrintThenTokenizeIff` | src/parser.cc:117-203 | tokenizing the space-joined print of any list of pieces returns that list if and only if the list is well formed: each piece is closed and unbroken, the last need not be closed |
| `Tokenizer.TokenizingIsStable` | src/parser.cc:117-203 | printing the pieces of any input and tokenizing again gives the same pieces |
| `Tokenizer.WordIsWellFormedIff` | src/parser.cc:117-203 | a word without white space, structural characters, quotes or opening brackets survives that round trip if and only if it does not start with NEW or FILTER, or holds a closing parenthesis |
| `Tokenizer.QuotedIsWellFormedIff` | src/parser.cc:117-203 | a quoted string survives it if and only if its text leaves no square or angle bracket open |
| `Tokenizer.BracketedIsWellFormedIff` | src/parser.cc:117-203 | text in square or angle brackets survives it if and only if it closes its quotes and the other kind of bracket |
| `Tokenizer.KeywordSwallows` | src/parser.cc:117-203 | what starts with NEW or FILTER and holds no closing parenthesis is never separated from what follows |
| `Tokenizer.SeparatorsAre` | src/parser.cc:117-203 | between two words the characters { } ; , and . are pieces of their own, blank, tab and newline only separate, and any other that opens no quote or bracket makes one piece of them |
| `TripleParser.PrintedBlockParses` | src/parser.cc:215-366 | for every list of subject groups, predicate groups, object lists, confidences up to 100, filters, NEW clauses and META groups, parsing its token print stops at the closing brace and yields the flattened triples in order with their META variables, and exactly the variables used |
| `TripleParser.ParsedIsConsistent` | src/parser.cc:215-366 | whatever tokens are parsed successfully, every variable of every triple is recorded, META variables are variables, confidences are at most 100, and what remains is a suffix that starts with a closing brace or is empty |
| `Grammar.ParsesIffBlock` | src/parser.cc:215-366 | for any tokens: the parse succeeds if and only if every token up to the end or the closing brace has a place its kind may stand in (subject, predicate, object of five kinds behind at most one rating of at most 100, valid filter, NEW, un-nested META with variable and brace, separator, or anything but braces, separators and the keywords taken for them behind a complete triple) and the places follow one another as the grammar has them; the triples, filters, NEW entities and names are then those of the tokens in their places |
| `Grammar.InsertParsesIff` | src/parser.cc:368-390 | a block for INSERT is accepted if and only if it is an opening brace, such tokens and a closing brace, and everything behind that is left |
| `Grammar.FailsIff` | src/parser.cc:205-344 | of the other token lists, those fail with the exception for numbers whose rating is no number of 64 bits, and those have undefined behaviour that end within a rated object or a META head or have an object without subject or predicate; the rest are rejected |
| `BlockParsers.BlockParser.Run` | src/parser.cc:215-366 | the loop over token position, flags and current subject and predicate succeeds from its start exactly on the tokens of a block, with what they say and the tokens behind them; from any state it agrees with the specified parse |
| `BlockParsers.BlockParser.Turn` | src/parser.cc:226-362 | one turn of the loop makes exactly the specified move of position and state, or stops with the specified result |
| `BlockParsers.BlockParser.TakeSubject` | src/parser.cc:244-285 | at subject position: META block, filter, NEW clause, subject or error, with what each consumes and records |
| `BlockParsers.BlockParser.TakeClause` | src/parser.cc:256-263 | a filter or NEW clause in place of a subject is recorded, or a filter without meaning fails |
| `BlockParsers.BlockParser.TakeMeta` | src/parser.cc:264-281 | a META head is consumed with its variable and brace and opens the block, or fails where one of them is missing or the block is nested |
| `BlockParsers.BlockParser.TakeProperty` | src/parser.cc:286-299 | at predicate position a property name or a variable is taken and anything else is refused |
| `BlockParsers.BlockParser.TakeObject` | src/parser.cc:301-344 | at object position: an object with or without a rating becomes a triple that carries the current META variable, or the parse fails |
| `TripleParser.DecimalReadsBack` | src/parser.cc:205-212 | the number read from the decimal print of a rating is that rating |
| `TripleParser.SubjectsRecordedIff` | src/parser.cc:215-366 | for any tokens that parse, a scan of them that keeps only the position, the kind of the last subject and the text of the last clause that overwrote it tells which names the block lists, and every variable that is a subject is listed if and only if no such text, used as a variable subject by a triple, is missing from those names |
| `TripleParser.HeadLeavesAStaleSubject` | src/parser.cc:215-366 | after a filter, a NEW clause or a META head, `;` goes on with the text of that clause as the subject and the former subject's type; if all variable subjects were listed before, they are after it if and only if the former subject is an entity or the text is listed |
| `TripleParser.StaleSubjectIsMissed` | src/parser.cc:215-366 | the inputs for it: of a variable subject's group, a filter and `;`, the parse lists every variable subject if and only if the filter's description is also used as a variable |
| `TripleParser.JunkBehindABlockIsSkipped` | src/parser.cc:215-366 | any block of the grammar means the same with any number of tokens behind its last triple, as long as none is a separator or closing brace |
| `Sorting.StableSortIsStableSort` | src/model/entity_property.cc:90-99 | the sort returns a permutation in descending order that keeps the order of equal keys |
| `Properties.RunKeepsValid` | src/model/entity_property.cc:59-134 | over every run of append, append of a list, remove, clear and lock, the values share the subtype, stay sorted by confidence, carry strictly increasing ids, and a single-valued list never exceeds one value |
| `Properties.FuzzyAppendInserts` | src/model/entity_property.cc:59-107 | an append to a fuzzy list is stable insertion followed by numbering from zero |
| `Properties.CertaintyIs` | src/types/base.cc:83-85 | records about values are fully certain, any other value is as certain as the top of its confidence list says |
| `Properties.RemoveDropsId` | src/model/entity_property.cc:183-195 | removing an id keeps the list valid and removes exactly the values with that id |
| `Properties.DereferenceFindsIds` | src/model/entity_manager.cc:476-484 | looking up by position finds the value with that id, for all values, if and only if the list is empty or its last id is one less than its length |
| `Properties.EntityProperty.constructor` | src/model/entity_property.cc:21-24 | a new list is empty and valid |
| `Properties.EntityProperty.AppendValue` | src/model/entity_property.cc:59-107 | the new list is the specified one, or the call throws exactly when specified and changes nothing |
| `Properties.EntityProperty.AppendList` | src/model/entity_property.cc:109-134 | the same for a list of values |
| `Properties.EntityProperty.RemoveId` | src/model/entity_property.cc:183-195 | the new list is the old one without its first value of that id, still valid |
| `ResultTable.FiltersKeepExactlyThePassingRows` | src/jobs/bgp.cc:26-34 | the swap-with-last sweeps leave exactly the multiset of rows that pass every filter |
| `ResultTable.ExtractAndRemovePartition` | src/variable_set.cc:253-267 | what is extracted and what remains after removal make up the table |
| `ResultTable.VariableSet.Erase` | src/variable_set.cc:103-114 | the last row takes the place of the erased one, and the iterator returned stays on that place or is the new end |
| `ResultTable.VariableSet.ApplyFilters` | src/jobs/bgp.cc:26-34 | the iterator loop over all filters ends with the swept table |
| `ResultTable.VariableSet.Sort` | src/variable_set.cc:269-273 | the table is sorted by descending ranking |
| `ResultTable.VariableSet.TrimEmptyRows` | src/variable_set.cc:229-240 | exactly the rows without any value go, the order of the others stays |
| `ResultTable.VariableSet.ExtractRowsWith` | src/variable_set.cc:253-261 | exactly the rows with a value for the variable, in order |
| `ResultTable.VariableSet.RemoveRowsWith` | src/variable_set.cc:263-267 | exactly the other rows remain, in order |
| `ResultTable.VariableSet.Finish` | src/jobs/bgp.cc:15-36 | trimming, filtering and sorting leave exactly the non-empty rows that pass every filter, in descending ranking |
| `Bytes.NumberReadsBack` | src/model/serialiser.cc:40-50 | a number of k little-endian bytes reads back when it fits into them |
| `Bytes.Serialiser.Append` | src/model/serialiser.cc:40-50 | bytes are added at the end and counted |
| `Bytes.Serialiser.Overwrite` | src/model/serialiser.h:47-55 | exactly the addressed bytes are replaced |
| `Directory.HeaderFillsIn` | src/model/graph_serialiser.cc:90-112 | after an item is appended, overwriting its blank header disturbs no other header, nothing between, and no item |
| `LinkTable.Serialise` | src/model/graph_serialiser.cc:167-187 | the loops append the specified bytes and return their number |
| `LinkTable.Unserialise` | src/model/graph_serialiser.cc:189-227 | the moving pointer with its bounds checks agrees with the specified decoding, on any bytes |
| `LinkTable.LinksReadBack` | src/model/graph_serialiser.cc:167-227 | every map from handles to handle sets reads back whatever follows it, if and only if the length given is exactly its own; otherwise it is rejected |
| `PrimitiveMap.SizeIsExact` | src/model/primitive_map_serialiser.cc:14-39 | the size recorded in the header is the number of bytes written, so the size assertion always holds |
| `PrimitiveMap.Serialise` | src/model/primitive_map_serialiser.cc:14-39 | header and pairs are appended as specified, in ascending key order |
| `PrimitiveMap.Unserialise` | src/model/primitive_map_serialiser.cc:41-63 | the stride loop agrees with the specified decoding, on any bytes |
| `PrimitiveMap.MapReadsBack` | src/model/primitive_map_serialiser.cc:14-63 | every map reads back whenever the length given covers it, and is rejected otherwise |
| `NameTable.SizeIsExact` | src/model/string_map_serialiser.cc:24-91 | the size recorded for a name table is the number of bytes written |
| `NameTable.Serialise` | src/model/string_map_serialiser.cc:24-91 | blank headers, strings in alphabetical order, back-patched headers and the released ids come out as specified |
| `NameTable.Unserialise` | src/model/string_map_serialiser.cc:93-124 | the reader agrees with the specified decoding, on any bytes |
| `NameTable.NamesReadBack` | src/model/string_map_serialiser.cc:24-124 | a table of NUL-free names reads back at exactly its own length in both directions and with its next id, but without the released ids; at any other length it is rejected |
| `MemberCodec.SerialiseAll` | src/model/member_serialiser.cc:91-98 | primitive members, then dynamic ones, are appended as specified and counted |
| `MemberCodec.UnserialiseAll` | src/model/member_serialiser.cc:100-127 | the reader agrees with the specified decoding, on any bytes and any shape |
| `MemberCodec.MembersReadBack` | src/model/member_serialiser.cc:10-127 | any list of primitive members that fit their widths and of NUL-free strings reads back, consuming exactly its own bytes |
| `RecordStreams.SerialiseValue` | src/model/type_serialiser.cc:28-59 | a value with its nested metadata is appended as specified, header back-patched |
| `RecordStreams.UnserialiseValue` | src/model/type_serialiser.cc:61-139 | on the bytes of any value, whatever follows them, reading returns that value as reloaded and its length, rejects it where its metadata is not loadable, or stops the process at a type it does not know; on other bytes it agrees with the specified decoding |
| `RecordStreams.SerialiseOwner` | src/model/property_owner_serialiser.cc:43-142 | a property table is appended as specified: header, property headers patched one by one, lock byte, values |
| `RecordStreams.Populate` | src/model/property_owner_serialiser.cc:144-171 | the values of one property are read, sorted and numbered as specified |
| `RecordStreams.UnserialiseOwner` | src/model/property_owner_serialiser.cc:173-250 | reading a property table agrees with the specified decoding and its checks, on any bytes |
| `Reload.ValueReadsBack` | src/model/type_serialiser.cc:28-139 | a value, to any depth of metadata, reads back as its reloaded form with exactly its own length, or is rejected, precisely when some table within it ends in an empty property or holds a type the reader does not know; if its own type is unknown the process stops |
| `Reload.OwnerReadsBack` | src/model/property_owner_serialiser.cc:43-250 | a property table of any nesting reads back as its reloaded form if and only if no table within it ends in an empty property or holds a type the reader does not know, and, if it is an entity's, its relations are lists of entity references; otherwise it is rejected |
| `Entities.Serialise` | src/model/entity_serialiser.cc:35-57 | header, members and properties are appended as specified, header back-patched |
| `Entities.Unserialise` | src/model/entity_serialiser.cc:59-97 | on the bytes of any entity, whatever types its lists have and whatever follows them, reading returns that entity as reloaded, or rejects it where it is not loadable; on other bytes it agrees with the specified decoding |
| `Entities.EntityReadsBack` | src/model/entity_serialiser.cc:35-97 | no header check fires on what was written, and the entity, relations of source references included, reads back as its reloaded form exactly when its property table is loadable into an entity; otherwise it is rejected |
| `Entities.CertaintyKept` | src/types/base.cc:83-85 | the confidence of a value survives the file |
| `Entities.PropertyRoundTripIff` | src/model/entity_property.cc:197-218 | a property equals its reloaded form if and only if it is sorted by confidence, its ids are 0..n-1 and it holds no time stamp moment |
| `Entities.EntityRoundTripIff` | src/model/entity.cc:187-208 | an entity equals its reloaded form if and only if that holds of all its properties and it has a single type |
| `DeepReload.OwnerKept` | src/model/property_owner_serialiser.cc:144-171 | a property table whose lists are sorted comes back from the file with everything but the moments of time stamps: locks, types, members, certainties and order, to any depth of metadata |
| `DeepReload.EntityKept` | src/model/entity_serialiser.cc:35-97 | so does an entity with one type, with its handle and status |
| `Entities.OneParentIff` | src/model/entity_property.cc:59-107 | inserting a certain parent leaves at most one if and only if the list is single-valued or was empty |
| `Entities.ReloadedParentsPileUp` | src/model/property_owner_serialiser.cc:144-171 | a reloaded list accepts one more parent, however many it holds |
| `GraphFile.EntityList` | src/model/entity_manager.cc:486-494 | all entities, by ascending handle |
| `GraphFile.Serialise` | src/model/graph_serialiser.cc:46-122 | whatever the serialiser already held, header, five sections and entity headers with their shifted offsets are appended as specified and nothing before them changes |
| `GraphFile.Unserialise` | src/model/graph_serialiser.cc:124-164 | reading a graph agrees with the specified decoding and its checks, on any bytes |
| `GraphFile.SectionsStand` | src/model/graph_serialiser.cc:46-122 | each of the five header entries addresses exactly its own section, and together the sections fill the file to its end |
| `GraphFile.GraphReadsBack` | src/model/graph_serialiser.cc:46-164 | decoding an encoded graph gives its reloaded form, with no check firing, if and only if every entity is loadable; otherwise it is rejected |
| `GraphFile.GraphRoundTripIff` | src/model/entity_manager.cc:843-873 | a saved and loaded graph is memberwise equal to the original if and only if no name id was released, every entity is unchanging and every list is sorted |
| `Damage.BadEntityIsRejected` | src/model/entity_serialiser.cc:59-90 | whatever else the bytes are, an entity of another version or size, or whose members or properties do not lie inside it and apart, is rejected |
| `Damage.BadTableIsRejected` | src/model/property_owner_serialiser.cc:173-215 | so is such a property table, and one whose properties begin at its end |
| `Damage.AcceptedProperties` | src/model/property_owner_serialiser.cc:217-250 | no table is accepted with a property that begins or ends outside it or is of an unknown type |
| `Damage.AcceptedValues` | src/model/property_owner_serialiser.cc:144-171 | the values of an accepted list are as many as it says, all of its type |
| `Damage.UnknownValueStops` | src/model/type_serialiser.cc:61-139 | a value of an unknown type stops the process |
| `Damage.ValueTakesItsSize` | src/model/type_serialiser.cc:61-139 | an accepted value takes as many bytes as it says and is of the type it says |
| `Damage.TypeCodes` | src/types/subtype.h:15-32 | the code under which each type is stored |
| `Damage.EntityStands` | src/model/entity_serialiser.cc:35-57 | the handle and the status of an entity at their places in its bytes |
| `Damage.BadNamesAreRejected` | src/model/string_map_serialiser.cc:93-124 | a name table of another size than it says is rejected |
| `Damage.BadNameIsRejected` | src/model/string_map_serialiser.cc:93-124 | so is a name that does not begin or end inside its table |
| `Damage.BadEntityHeaderIsRejected` | src/model/graph_serialiser.cc:124-157 | an entity whose header or bytes lie outside the file is rejected |
| `Damage.AcceptedHandles` | src/model/graph_serialiser.cc:124-157 | the entities of an accepted graph are as many as it says, under handles of their own, none of them null |
| `DataFile.WriteFile` | src/file_system.cc:52-84 | the chunk loop writes the header and all bytes in order |
| `DataFile.FileReadsBack` | src/file_system.cc:52-132 | what was written reads back, and its length is reported, unless it is empty, which reading rejects |
| `DataFile.WrongSizeIsRejected` | src/file_system.cc:90-132 | a file with that header but any other size is rejected |
| `Stability.EntityFineAgain` | src/model/entity_serialiser.cc:35-97 | a reloaded entity meets all conditions of saving again and no longer changes |
| `Stability.ReloadSettles` | src/model/graph_serialiser.cc:46-164 | after one save and load, another save and load returns a memberwise equal graph |
| `Stability.EqualGraphKeeps` | src/model/entity_manager.cc:843-873 | a graph memberwise equal to one that survives the file survives it too, and has the same handles, links and statuses |
| `Persistence.HeldLoads` | src/model/entity_manager.cc:598-629 | loading a file that saving wrote succeeds and gives the reloaded graph |
| `Persistence.InStepLoads` | src/model/entity_manager.cc:598-629 | when memory and file agree, loading gives a graph memberwise equal to the one in memory |
| `Persistence.SavedInStepIff` | src/model/entity_manager.cc:584-596 | after a save memory and file agree if and only if the graph survives the file |
| `Persistence.RecoveryRestores` | src/model/entity_manager.cc:307-313 | whatever an aborted call has made of the graph, the handler restores one memberwise equal to that before the call, leaves the file alone and is ready for the next call |
| `FirstSave.LoadsIffUsable` | src/file_system.cc:90-132 | loading reads a file if and only if it is longer than its header of sixteen bytes, starts with FZDB and version 1, and has as many bytes behind the header as it says; then everything behind the header is decoded |
| `FirstSave.ThrowWithoutFileIff` | src/model/entity_manager.cc:598-617 | a call that throws ends not restored if and only if the file is not of that kind; the file then stays as it is, and memory as the call had made it |
| `FirstSave.ThrowWithFile` | src/model/entity_manager.cc:619-629 | with such a file it ends with what the bytes behind the header decode to: that graph, a reset of graph and file, or the end of the process |
| `FirstSave.RequestWithoutFile` | src/model/entity_manager.cc:307-313 | without one, LINK, UNLINK and a refused MERGE leave the graph as it was, and INSERT leaves what its edits had done up to the exception |
| `FirstSave.RunFromNoFile` | src/model/entity_manager.cc:584-629 | over every run from a graph without a file, the file is untouched until the first call that is saved, and memory and file agree after every call from then on |
| `Persistence.UnloadableResets` | src/model/graph_serialiser.cc:158-163 | recovering from a file saved from a graph that is not loadable, because some table ends in an empty property or holds a type the reader refuses, resets graph and file; from any other saved file it restores the saved graph |
| `Persistence.StepKeepsInStep` | src/model/entity_manager.cc:666-748 | one LINK, UNLINK or other change ends saved, without effect or restored; restored exactly when it threw; afterwards memory and file agree exactly unless it was a completed change to a graph that does not survive the file; the link invariant holds |
| `Edits.EditKeepsReadyIff` | src/model/entity_manager.cc:143-301 | creating an entity, declaring a property, putting any value or relation into an entity, and annotating a value with any record each leave a graph that can be saved, merged and edited, survives the file and has its links in order, if and only if the value is of a type the reader knows, an entity reference if the property is a relation, no moment of a time stamp is put, and the annotated value, with the confidence it then has, stays between its neighbours |
| `Edits.EditLoadsIff` | src/model/property_owner_serialiser.cc:173-250 | after any edit that completes the graph can be written, and the reader takes the file if and only if it knows the type of what was added and, under a relation, finds an entity reference |
| `Edits.EditIsKeptIff` | src/model/entity_manager.cc:843-873 | after any edit that completes, the file loads as a graph equal to the one in memory if and only if that condition on the edit holds |
| `Edits.RecoveryAfterEdit` | src/model/graph_serialiser.cc:158-163 | when a later call fails, the handler resets the whole database exactly if the reader refuses the type of what an earlier saved edit added; otherwise it restores what was saved, equal to it exactly if the edit survives |
| `Losses.PropertyReferenceLoses` | src/model/entity_manager.cc:182-189 | an input for it: the reference to a property, as a variable in the place of a predicate holds it, is put and saved, and the next call that fails resets the database |
| `Losses.SourceReferenceLoses` | src/model/entity.cc:76-81 | another: a source reference is put under subsetOf, mirrored and saved, and the next call that fails resets the database |
| `Losses.TimeStampDiffers` | src/model/property_owner_serialiser.cc:144-171 | a time stamp is put and saved, and the file loads as a graph that is not equal |
| `Losses.ConfidenceDiffers` | src/model/entity_manager.cc:285-301 | a lowered confidence is annotated to the first of two values, and the saved file loads as a graph that is not equal |
| `Edits.BodyKeepsReady` | src/model/entity_manager.cc:132-308 | every INSERT body that completes with edits that meet the condition leaves such a graph |
| `Insertions.PutAdds` | src/model/property_owner.cc:154-178 | putting a value under a property that is no relation goes through if and only if the entity is live and unlocked and the list, fuzzy if new, takes it; the list is then its own values and this one, sorted and numbered, and nothing else differs |
| `Insertions.PutRelates` | src/model/entity.cc:110-149 | under a relation it goes through if and only if the value is a reference to a live entity, both are unlocked and both lists take their reference; the list and the opposite list of the other entity each have one more, as certain as the value, and nothing else differs |
| `Insertions.AnnotateAdds` | src/model/entity_manager.cc:285-301 | an annotation goes through if and only if the value is there and its metadata takes the record; that one list of its metadata has the record more, and nothing else differs |
| `Registry.DeclareRecords` | src/model/entity_manager.cc:207-216 | a property used for the first time gets an id that was not in use, the one released last or else the next, and the code of this use; every other name, id and code stays; a name that exists changes nothing |
| `Registry.BodyKeepsCodes` | src/model/entity_manager.cc:132-308 | over every INSERT each property keeps its id and the code of its first use |
| `Registry.RunKeepsCodes` | src/model/entity_manager.cc:207-216 | over every run of calls, completed or aborted, a known property keeps its id and code |
| `Registry.CreateLeaves` | src/model/entity_manager.cc:36-58 | NEW with an unused handle leaves a live, unlinked, unlocked entity whose only property is its type: one value with the id the type name stands for afterwards, and the author and the moment locked in its metadata; a new type name is registered under an id that was not in use, and nothing else differs |
| `Registry.TypesAgreeIff` | src/model/entity.cc:16-19 | two entities made by one INSERT have equal types, and may be merged, if and only if their type names are equal |
| `Runs.RequestKeepsReady` | src/model/entity_manager.cc:307-313 | one LINK, UNLINK, MERGE or INSERT ends saved, without effect or restored; memory and file agree, and the next call finds what this one found; of a call that throws nothing is asked, of an INSERT that completes that its edits meet the condition, of a MERGE that the loser is unlinked |
| `Runs.LastEditDecides` | src/model/entity_manager.cc:132-315 | the condition is exact: if all edits of a completed INSERT before the last meet it, memory and file agree after the call if and only if the last does |
| `Runs.RunStaysInStep` | src/model/entity_manager.cc:584-629 | over every run of such calls, completed or aborted part-way at any edit, after every prefix memory is memberwise equal to the decoded file and the links are in order |
| `MirroredRuns.EditKeepsMirror` | src/model/entity.cc:110-149 | an edit that completes, whatever it adds, keeps every parent live and listing its child |
| `MirroredRuns.RunStaysMirrored` | src/model/entity_manager.cc:307-313 | over every run of LINK, UNLINK and INSERT, and MERGE as long as it throws, every parent is live and lists its child after every call, whoever is locked, because the half of a relation that an aborted insert leaves is undone with the call |
| `Removals.DeletionSurvivesIff` | src/model/entity_manager.cc:448-462 | a graph that survives the file, less one number, string or date, can be saved and comes back equal if and only if the value was the last of its list |
| `Startup.TwoAreCreated` | src/model/entity_manager.cc:36-58 | creating two entities of a new type in an empty graph registers the name under id 1 and leaves two unlinked entities with nothing but a record of type 1, its author and its moment |
| `Startup.ThenTheyAreLinked` | src/model/entity_manager.cc:666-694 | linking them makes the lower handle Master and the other Slave |
| `Startup.SavedPairIsInStep` | src/model/entity_manager.cc:584-596 | saved, the linked pair is a database that meets all conditions of the theorems about runs, the mirror included |
| `Startup.MergedPairBreaksLinks` | src/model/entity_manager.cc:751-785 | merging the pair completes and breaks the link invariant |
| `Startup.RemovalIsNotKept` | src/model/entity_manager.cc:448-462 | two inserts of a number into one of the pair and the removal of the first leave a graph that is saved but not loaded equal |
| `Merging.MergeKeepsLinksIff` | src/model/entity_manager.cc:751-785 | MERGE keeps the link invariant if and only if the loser was not linked |
| `MergedLists.MergeGathers` | src/model/property_owner.cc:135-152 | after MERGE the survivor's list under any key but the two relations is, if both had one and the loser's is not locked, the stable sort by certainty of its own values followed by all of the loser's, numbered from zero, or for a single-valued list the loser's last; if it had none, the loser's; every other list of every entity is as before |
| `MergedLists.GatheredHoldsAll` | src/model/entity_property.cc:59-107 | such a list holds every value of both, with type, members and metadata, as often as the two together, by descending certainty, equals in the order they had, the survivor's first |
| `MergedLists.AppendAllIsEach` | src/model/entity_property.cc:109-134 | appending a list to a fuzzy property at once is appending its values one by one |
| `MergedLists.MergeGathersRelations` | src/model/entity.cc:76-108 | under the two relations too the survivor's list has the loser's values joined to it, and the opposite list of the entity the loser's top names gains a reference to the survivor, first for parents, then for children; no other list changes |
| `MergedLists.MergeNamesSurvivor` | src/model/entity.cc:76-108 | the parent or child named by the loser's top, if still there, lists the survivor, and as its only parent where it has one place for a parent |
| `MergedLists.MergeLeavesRest` | src/model/entity_manager.cc:770-782 | exactly the higher of the two handles is gone, so that an entity merged with itself is erased; handles, statuses, locks, links, names and codes are as before |
| `MergedLists.MergeCompletesIff` | src/model/entity_manager.cc:751-785 | a MERGE of two entities of one type completes if and only if every unlocked property of the loser goes into the survivor: unlocked, of the same type, certain where certainty is asked, and for a relation an entity reference to a live entity whose list takes the reference back |
| `MergedLists.MergeAborts` | src/model/entity_manager.cc:769-785 | one that throws half-way has dealt with the properties before one that does not go in, and of that one at most with the mirrored reference |
| `Merging.MergeKeeps` | src/model/entity_manager.cc:751-785 | MERGE of a graph that survives the file leaves one that does |
| `Merging.MergeKeepsMergeable` | src/model/entity_manager.cc:751-785 | MERGE never asks for the top of an empty list, and leaves a graph that can be saved and merged again, with released names and gaps in the numbering or without |
| `Merging.MergeKeepsInStep` | src/model/entity_manager.cc:781-784 | after MERGE, completed or aborted, memory and file agree; aborted it leaves an equal graph and the same file; the link invariant holds exactly if it aborted or the loser was not linked |
| `EntityManagers.EntityManager.SaveToFile` | src/model/entity_manager.cc:584-596 | the file becomes the encoded graph, memory stays |
| `EntityManagers.EntityManager.LoadFromFile` | src/model/entity_manager.cc:598-629 | the graph becomes the decoded file, or graph and file are reset when it is rejected; graph and file stay if and only if the file is too short, of another format or version, or of another size than it says |
| `EntityManagers.EntityManager.SetStatuses` | src/model/entity_manager.cc:681-688 | of the group the lowest handle becomes Master, the others Slaves, no other entity and no other field changes |
| `EntityManagers.EntityManager.LinkEntities` | src/model/entity_manager.cc:666-694 | the lookups, the table update, the search and the loop over statuses make the specified step of graph and file |
| `EntityManagers.EntityManager.SettleEnd` | src/model/entity_manager.cc:717-742 | an end left alone loses its entry and status, a larger group gets its statuses anew |
| `EntityManagers.EntityManager.UnlinkEntities` | src/model/entity_manager.cc:696-748 | both searches happen before either end is settled, and together they make the specified step |
| `EntityManagers.EntityManager.InsertEntity` | src/model/entity_manager.cc:501-509 | a live or null handle stops the process, any other is added and nothing else changes |
| `EntityManagers.EntityManager.Apply` | src/model/entity_manager.cc:307-313 | whatever a change did before it completed or threw, the call ends with the specified step of saving or recovering |
| `EntityManagers.EntityManager.CreateEntity` | src/model/entity_manager.cc:36-58 | the type name is looked up or registered, and an entity with nothing but a record of that type, its author and its moment joins those that exist |
| `EntityManagers.EntityManager.DeclareProperty` | src/model/entity_manager.cc:207-216 | a new property name joins under an id that was not in use, with the given code; a known one changes nothing |
| `EntityManagers.EntityManager.PutValue` | src/model/entity.cc:110-149 | inserting a value changes the entity and, for a relation, the mirrored one as specified; the mirrored half stays when the insert itself throws |
| `EntityManagers.EntityManager.AnnotateValue` | src/model/entity_manager.cc:285-301 | the value at the position gets the record among its metadata, or the call throws and changes nothing |
| `EntityManagers.EntityManager.Insert` | src/model/entity_manager.cc:132-315 | the edits are made one after the other up to the first that throws, and the call ends with the specified step of saving or recovering; saved, every property has the code of its first use |
| `EntityManagers.EntityManager.InsertWhole` | src/model/entity.cc:76-108 | inserting a whole property changes the entity and, for a relation, the mirrored one as specified; the mirrored half stays when the insert itself throws |
| `EntityManagers.EntityManager.MergeEntities` | src/model/entity_manager.cc:751-785 | type check, property loop, erase, and save or recovery make the specified step; a completed merge erases the higher handle and no other, joins every list of the loser to the survivor's as said above, and leaves links and name tables as they were |

## Left out

- Sockets, sessions, server, job queue, locks, Windows service and front ends: input, output and vendor code.
- The scan functions, and with them the meaning of BGP: the edits of an INSERT and the value of a DELETE are given, not searched for. Of DELETE only the branch for a number, string or date is modelled. The pointer thrown at src/model/entity_manager.cc:257, which no handler catches, is excluded.
- User accounts, permissions, hashing and JSON output.
- The regular expressions of `identifyToken`, the regex filter and the ordering filter: the parser starts from classified tokens, and a filter is any predicate on rows.
- `VariableSet::removeMetaRefs` and `VariableSet::extend` on a table with rows: the first leaves its range, the second does not widen rows.
- `_lastHandle` and the manager pointers: neither stored nor compared.
- Matching on an entity that is a link Master: the source drops the state there and the recursion can bounce between members, so matching is modelled for unlinked entities.
- Matching assumes an acyclic hierarchy of live entities, which the code does not enforce.
- `Properties.Certainty` reads a value without a confidence record as certain, where the source follows a null pointer; records of sound values are always there.
- `Levenshtein.LevenshteinDistance`: nothing is stated for two empty strings, because the result is an unwritten cell; strings are shorter than the word limit of the column.
- `Hierarchy.MakeRef`: the mirrored reference carries its confidence record only, without author, source and time, which come from the session and the clock.
- `Hierarchy.RunKeepsMirror`: sufficient only; the exact condition over a run is `Hierarchy.RunKeepsMirrorIff`. Re-parenting leaves the child in the list of its former parent, so "every parent lists its child" is stated, not the converse.
- `Matching.MeetsCondition`: relations are taken to hold entity references; a source reference in one is searched on as a text by the source (src/model/property_owner.cc:106-109), where the model follows it. Such a relation does not survive the file (`Losses.SourceReferenceLoses`).
- `GraphFile.GraphReadsBack`: decoding is stated for a graph written into an empty serialiser, as saving does; in another position the entity offsets count from the front of the serialiser while the reader counts from the section (src/model/graph_serialiser.cc:108). `GraphFile.Serialise` covers any position.
- `Entities.Unserialise`: the type record of the null entity that reading starts from, and the graph that `clearAll` builds, are parameters, because they hold the time and the author of the moment.
- `Reload.ReloadedValue`: a reloaded time stamp has no moment; the reading constructor of src/types/timestamp.h does not set one, so the source holds the not-a-date value there.
- Bytes that are no value of their boolean or enumeration type are treated as fatal, where the source's behaviour is undefined.
- File operations succeed and a missing file is an empty one; sizes stay below 2^64 and value lists below 2^32 entries, the ranges of the source's fields.
- `EntityManagers.EntityManager.MergeEntities`: after a merge in the source, two entities can share one property object; here they hold equal copies. The property loop runs over the loser's properties as they were at its start, which differs only when the loser is related to itself. No list of the graph is empty and none grows past 2^32 values.
- `Persistence.RunKeepsInStep`: a completed change is asked to leave a graph that survives the file; `Runs.RunStaysInStep` proves it of MERGE and of INSERT.
- `Runs.RunStaysInStep`: a MERGE that completes has an unlinked loser, because the links are not in order afterwards (`Merging.MergeKeepsLinksIff`); the handle of a created entity and the values of an INSERT are given.
- `Edits.BodyKeepsReady`: the condition is asked of every edit, where a later edit of the same body may still put right what an earlier one broke, as when an append sorts a list again; for the last edit, or the only one, it is exact (`Runs.LastEditDecides`).
- `MirroredRuns.RunStaysMirrored`: a MERGE that completes is excluded, because it erases an entity that others may have as their parent.
