# A verified model of Hara's native core

Hara's native core (`core/rust/src`) evaluates programs in suspendable fibers, carries values between runtimes in
binary and textual formats, and packages and routes commands. This project models ten of its components in Dafny and
proves what they promise. Each component pairs a form that runs (a step machine, a byte cursor, a flat map, a table)
with a simple meaning, and the main results connect the two for every input, every run or every reachable state.

- **Fibers** (`FiberData`, `FiberMachine`, `FiberDirect`, `FiberBigStep`, `FiberRefinement`, `FiberScoping`,
  `FiberForms`, `FiberRows`, `FiberParts`, `EvalFiber`): the continuation-passing evaluator as a machine over tasks and frames, against a direct evaluator in
  which an await answers at once. Code outside the evaluator (`eval`, patterns other than symbols, host calls) is a
  parameter, `Host`. The direct evaluator takes a step budget; the results quantify over every budget.
- **HTA0 frames** (`HtaData`, `HtaWire`, `HtaRoundTrip`, `HtaTheorems`, `HtaLaws`, `HtaOrder`, `HtaStability`,
  `HtaSoundness`, `HtaGrammar`, `HtaExact`, `HtaFound`, `HtaWritten`, `HtaCodec`, `HtaReader`): the tagged binary codec
  with its canonical order, length guards and depth limit, against a grammar of its bytes.
- **Canonical frames** (`HtaRebuild`, `HtaListing`, `HtaSettling`, `HtaRebuiltSound`, `HtaCanonical`, `HtaAcceptance`,
  `HtaRefusals`, `HtaCanonicalReader`): what the host makes of a decoded value when it rebuilds its sets and maps, and
  which frames then encode to themselves. The host's equality, order and hashing are a parameter, `Host`: for two
  encodings, whether the values are one key, which answers their comparison may give, and whether they hash by address.
- **Component value graph** (`GraphData`, `GraphSpec`, `GraphLaws`, `GraphTheorems`, `GraphMeaning`,
  `GraphBuilder`): values flattened to post-order nodes, validated with a worklist and rebuilt.
- **In-memory filesystem** (`FilePaths`, `FileMeaning`, `FileTree`, `FileLaws`, `FileMoves`, `FileListing`,
  `FileProvider`): what a path with dots means, and a flat map from normal paths to nodes that is always a tree.
- **JSON** (`JsonText`, `JsonLaws`, `JsonSoundness`, `JsonGrammar`, `JsonSpelling`, `JsonExact`, `JsonNeat`,
  `JsonParser`): writer and recursive-descent reader, against the grammar of RFC 8259 for integers.
- **Package order** (`PackageGraph`, `PackageLaws`, `PackageMeaning`, `PackageOrder`, `PackageProfile`): suffix name
  resolution, depth-first ordering and namespace ownership, over the list of packages as it is given.
- **Sealed executables** (`SealedLayout`, `SealedLaws`, `SealedRounds`, `SealedSpacing`, `SealedChain`, `SealedOpening`,
  `SealedExact`, `SealedExecutable`): the self-describing payload and the envelope parser, over a parameter `Library` for the digest
  and the descriptor's text.
- **Numerics** (`Numeric`): integers of any size against binary64 floats, exactly.
- **WebAssembly inspection** (`WasmBinary`, `WasmLaws`, `WasmGrammar`, `WasmElements`, `WasmSections`, `WasmReader`):
  integers, sections, imports and exports, against a grammar of sections.
- **Command router** (`CommandRouter`, `CommandRoutes`, `CommandHandles`, `CommandArguments`, `CommandLine`,
  `CommandApp`): routes, handles, generations, matching and arguments, with a grammar of command lines.

`Prelude`, `Powers`, `Decimal`, `Utf8` and `StringOrder` are shared. `dafny verify dfyconfig.toml` checks the project.

Some things one would expect of the code fail, and each failure is a result here, with an input that shows it and the
condition under which the expectation holds:

- A failing initialiser of a let or loop leaves earlier bindings in place (`FailedInitialiserLeaves`, `LeakedBinding`).
- `finally` is skipped exactly when the body fails and a malformed catch clause stands before every clause that matches
  (`FinallyRunsOnce`, `FinallyExactly`, `SkippedFinally`). The check that an unconditional catch comes last can never
  fire, because the search stops at that clause (`SearchCatches`).
- The frame encoder counts the fields of structs and results one level shallower than the decoder, so some values
  encode to frames that are refused (`FrameRoundTrip`, `EncodableButNotReadable`).
- The bytes of a map depend on iteration order exactly when two of its entries have the same key bytes and different
  value bytes. Atoms, arrays and objects compare by identity, so one map can hold such entries (`HtaOrder.MapOrder`,
  `IdentityKeysShowOrder`). Arrays and objects hash by content and stay in order of arrival, while atoms hash by
  address: a map read back may show two atoms in the other order, and the canonical decoder may then refuse a frame
  that the encoder made (`OwnFrame`, `AtomsMayBeRefused`).
- The canonical decoder accepts a frame whatever the host does exactly when it was made of a value that is steady at
  every level, and possibly exactly when that value is regular (`AlwaysExactly`, `MayExactly`). A sorted map out of
  order and a set with a repeated element are always refused (`UnsortedRefused`, `RepeatRefused`).
- A keyword made without validation is flattened to a graph that does not read back (`GraphTheorems.RoundTrip`,
  `UnparsedKeyword`).
- A failing move leaves new directories behind exactly when its source is missing and its target's parents were made
  (`MoveEffect`, `MoveMakesParents`).
- Sixteen rounds settle the descriptor of any number of packages in a payload below 10^10 bytes, of a thousand packages
  below 10^13 bytes, and of thirteen archives of any size. They do not settle every list that the number types allow:
  fifteen archives reaching to 10^17 bytes have a true descriptor that is given up (`PackagesConverge`,
  `ThousandConverge`, `ThirteenConverge`, `NotReached`).
- After a restore a route handle can be given out again, exactly when the counter once stood higher
  (`HandleComesBack`, `HandleTwice`).

## Model

| member | source | states |
|---|---|---|
| FiberRefinement.FiberIsDirect | core/rust/src/fiber.rs:485-1554 | for every host, program and state the trampolined, suspending machine finishes with a result, environment and list of waits if and only if the direct evaluator, whose awaits answer at once, yields them |
| FiberRefinement.RecurKeepsContinuation | core/rust/src/fiber.rs:892-933 | each `recur` brings the machine back to the loop head under the very continuation it started with, so loops do not grow the stack |
| FiberBigStep.FinDrives | core/rust/src/fiber.rs:485-513 | a computation that finishes on its own finishes the same way under any continuation, handing its outcome to it |
| FiberBigStep.DrivesFin | core/rust/src/fiber.rs:485-513 | conversely a run under a continuation that ends passes through the finished sub-computation, with steps left over |
| EvalFibers.DrivenRunStops | core/rust/src/fiber.rs:453-484 | a run that is driven to its end first stops by itself at an end or a wait, and the rest of the drive is unchanged from there |
| EvalFibers.EvalFiber.Start | core/rust/src/fiber.rs:384-415 | starting a fiber leaves it exactly where the machine finishes or first suspends |
| EvalFibers.EvalFiber.Accept | core/rust/src/fiber.rs:485-513 | the driver loop leaves the object standing for the stopped machine, holding a promise and a continuation exactly when suspended |
| EvalFibers.EvalFiber.Resume | core/rust/src/fiber.rs:425-438 | a suspended fiber goes on as if the awaited call had returned the settlement; any other fiber is unchanged |
| EvalFibers.EvalFiber.Cancel | core/rust/src/fiber.rs:439-452 | only a suspended fiber changes: it drops promise and continuation and names the promise to notify |
| EvalFibers.EvalFiber.DriveSync | core/rust/src/fiber.rs:453-484 | settling promise after promise ends in the outcome of the driven run; terminal fibers never change |
| EvalFibers.RunProgram | core/rust/src/fiber.rs:1556-1574 | running a whole program through a fiber gives the outcome, environment and waits of the direct evaluator |
| FiberScoping.RestoreIsEarliest | core/rust/src/fiber.rs:843-851 | undoing saved bindings leaves each name with its oldest saved state, even if it was bound twice |
| FiberScoping.RestoreLoop | core/rust/src/fiber.rs:843-851 | the undo loop gives every name its oldest saved state, or leaves it alone |
| FiberScoping.ScopeRestores | core/rust/src/fiber.rs:806-933 | on every exit of a let or loop whose initialisers all bind, each bound name regains what it held just before it was first bound, and the body's outcome is kept |
| FiberScoping.FailedInitialiser | core/rust/src/fiber.rs:806-842 | the bindings of a let or loop fail with an error in a state if and only if some pair is reached with every earlier pair bound and fails so, and the form then ends just there |
| FiberScoping.FailedInitialiserLeaves | core/rust/src/fiber.rs:806-842 | name by name: undoing what was recorded before the failure would change nothing exactly when no earlier pair bound the name or it held the same value before the first that did |
| FiberScoping.LeakedBinding | core/rust/src/fiber.rs:831-839 | a concrete let whose second initialiser fails leaves its first name bound |
| FiberScoping.SelectMalformed | core/rust/src/fiber.rs:1129-1155 | the search for a catch meets a malformed clause exactly when one stands before every clause that matches |
| FiberScoping.FinallyRunsOnce | core/rust/src/fiber.rs:1094-1238 | every try form is the same form without finally, followed by one run of the finally forms whose error wins, except that a failing body with a malformed clause before every matching one is not followed by them |
| FiberScoping.FinallyExactly | core/rust/src/fiber.rs:1122-1181 | whatever forms are put in finally, they run after the body if and only if the body succeeds or no malformed clause stands before every clause that matches its error, or an interrupt would stop them with the same report |
| FiberScoping.SkippedFinally | core/rust/src/fiber.rs:1139-1142 | a concrete try whose finally form is skipped, and runs when the body succeeds |
| FiberScoping.SearchCatches | core/rust/src/fiber.rs:1129-1155 | the loop with its flag finds what the search specifies and never reports an unconditional clause out of place |
| FiberForms.IfMeans | core/rust/src/fiber.rs:665-681 | `if` evaluates its test and then only the branch it chooses; nil and false alone choose the other one, for every budget |
| FiberForms.AndMeans | core/rust/src/fiber.rs:728-748 | `and` runs its forms in order up to the first that is nil or false or fails and answers it, or the last, or true if there is none, and in no other way |
| FiberForms.OrMeans | core/rust/src/fiber.rs:750-771 | `or` the same up to the first that is neither nil nor false; nil if there is none |
| FiberForms.CondMeans | core/rust/src/fiber.rs:773-794 | `cond` runs its tests in order up to the first that is neither nil nor false and answers its expression alone, or nil |
| FiberForms.DoMeans | core/rust/src/fiber.rs:516-555 | `do` runs its forms in order and answers the last, nil if there is none, the first error, or a recur as soon as one comes up |
| FiberRows.AllRun | core/rust/src/fiber.rs:557-598 | a list of forms yields values, or fails with an error, exactly when they are evaluated from left to right, each in the state the one before has left, up to the first that fails |
| FiberRows.LiteralMeans | core/rust/src/fiber.rs:605-642 | a vector, set or map literal collects the values of its parts, evaluated so |
| FiberRows.RecurMeans | core/rust/src/fiber.rs:692-698 | `recur` answers with the values of its forms, evaluated so |
| FiberRows.ArgumentsMean | core/rust/src/fiber.rs:1272-1297 | a call evaluates its arguments so and then calls, or fails as they do |
| FiberRows.HeadMeans | core/rust/src/fiber.rs:1308-1366 | a head that is no symbol is evaluated before the arguments |
| FiberRows.FieldSetMeans | core/rust/src/fiber.rs:935-995 | setting a field evaluates the receiver, then the replacement, and then sets it |
| FiberRows.DefineMeans | core/rust/src/fiber.rs:997-1092 | a definition hands the value of its form to the host with the name |
| FiberRows.ThrowMeans | core/rust/src/fiber.rs:700-713 | `throw` throws the exception its form answers with, and nothing else can be thrown |
| FiberParts.HeadDecides | core/rust/src/fiber.rs:658-726 | a list is a special form exactly by its head symbol, and no symbol heads two of them |
| FiberParts.FlattenAlternates | core/rust/src/fiber.rs:605-621 | the keys and values of a map literal are evaluated in the order they are written |
| FiberParts.TrySplits | core/rust/src/fiber.rs:1094-1120 | a try has the body before its first clause, its catch clauses in order and all finally forms, exactly when nothing but clauses follows |
| FiberParts.CatchReads | core/rust/src/fiber.rs:1185-1220 | the parser takes exactly the clauses with a class name, a namespaced keyword or a vector of them, a name and a body, and takes them apart so |
| FiberParts.RebindNames | core/rust/src/fiber.rs:892-925 | a recur to plain names gives each name its last value and leaves every other alone |
| FiberParts.RebindInTurn | core/rust/src/fiber.rs:892-925 | patterns are bound in turn up to the first that fails |
| FiberParts.LoopMeans | core/rust/src/fiber.rs:892-933 | a loop is some rounds, each ended by a recur of as many values as patterns, and a last one, if and only if the evaluator says so |
| FiberParts.ScopeBodyRuns | core/rust/src/fiber.rs:852-890 | the body of a let or loop is all its forms after the bindings |
| FiberParts.ScopeBodyIs | core/rust/src/fiber.rs:860-870 | a single body form stands for itself, and several stand for a `do` of them |
| FiberParts.FieldPlaceIs | core/rust/src/fiber.rs:935-996 | a field place is exactly a receiver and an unqualified field, as a keyword or a symbol |
| FiberParts.AwaitAnswers | core/rust/src/fiber.rs:453-484 | a call that awaits a promise joins it to the waits and answers its value or rejection, asking a pending one once more |
| FiberParts.CallRuns | core/rust/src/fiber.rs:1414-1555 | a called function runs its forms in its own environment, the caller's comes back, and a recur may not leave it |
| HtaTheorems.ValueDecodes | core/rust/src/hta.rs:213-842 | reading the bare encoding of any well-formed value, followed by anything, returns its canonical form and leaves the rest exactly when it is within the decoder's depth, and is refused otherwise |
| HtaLaws.FrameRoundTrip | core/rust/src/hta.rs:173-198 | a frame decodes to the canonical form of its value if and only if the value is within the decoder's depth measure; past it the frame is refused |
| HtaLaws.SelfDelimiting | core/rust/src/hta.rs:213-505 | an encoding is a prefix of another only if both mean the same canonical value, for all values the encoder accepts, those past the decoder's depth included |
| HtaLaws.SetOrder | core/rust/src/hta.rs:281-292 | a set's encoding does not depend on iteration order |
| HtaOrder.MapOrder | core/rust/src/hta.rs:339-351 | all rearrangements of a map's entries give the same bytes if and only if entries with equal key bytes have equal value bytes; then they also have one canonical form |
| HtaOrder.DistinctKeysAgree | core/rust/src/hta.rs:339-351 | keys with different canonical forms have different bytes, so a map of such keys encodes the same in any order |
| HtaOrder.IdentityKeysShowOrder | core/rust/src/core/value.rs:3487-3490 | a map with two atoms of equal content as keys has different bytes in its two orders |
| HtaLaws.CanonStable | core/rust/src/hta.rs:204-211 | canonical form changes nothing on the wire and is reached in one step |
| HtaLaws.FrameRelists | core/rust/src/hta.rs:173-198 | every frame made from a readable value decodes to a listing that is written as the same frame |
| HtaSoundness.MadeExactly | core/rust/src/hta.rs:173-198 | the listing in a frame is written as that frame if and only if the encoder makes the frame of some well-formed value within the decoder's depth |
| HtaAcceptance.AlwaysExactly | core/rust/src/hta.rs:204-211 | for every lawful host a frame is accepted whatever the host makes of it if and only if the encoder makes it of a readable value whose canonical form is steady: at every level no key twice, sorted kinds in order, and no visible difference between entries that may change places |
| HtaAcceptance.MayExactly | core/rust/src/hta.rs:204-211 | it is accepted for something the host may make of it if and only if that canonical form is regular; otherwise it is always refused |
| HtaAcceptance.OwnFrame | core/rust/src/hta.rs:204-211 | the frame of a value the host holds can be accepted, and is accepted whatever the host does exactly when its canonical form is steady |
| HtaRefusals.UnsortedRefused | core/rust/src/hta.rs:653-655 | a sorted map frame with the keys 2 and 1 is refused |
| HtaRefusals.RepeatRefused | core/rust/src/hta.rs:632 | a set frame with nil twice is refused |
| HtaRefusals.AtomsMayBeRefused | core/rust/src/core/value.rs:3724 | a map with two atoms of equal content as keys makes a frame that may be accepted and may be refused |
| HtaCanonical.KeptSteady | core/rust/src/hta.rs:204-211 | a canonical value whose rebuilds are all written alike is steady, and so are all values in it |
| HtaCanonical.SteadyKept | core/rust/src/hta.rs:204-211 | every rebuild of a steady value is written alike |
| HtaCanonical.RebuiltRegular | core/rust/src/hta.rs:632-668 | whatever is rebuilt is regular at every level |
| HtaRebuiltSound.RebuiltReplaces | core/rust/src/hta.rs:632-668 | a rebuilt value stays within the host's types, the encoder's limits and the decoder's depth |
| HtaSettling.SettlesProper | core/rust/src/hta.rs:632-668 | one collection after the host has built it: one entry per key, sorted kinds rising, repeated fields alike |
| HtaSettling.SettledStays | core/rust/src/hta.rs:632-668 | a proper collection in which entries that may change places agree is always written alike |
| HtaListing.BuiltOrderly | core/rust/src/lang/data/sorted_map.rs:134-157 | taking in entries one by one keeps a listing free of repeats and rising, replaced keys and moved priorities included |
| HtaListing.StillStays | core/rust/src/lang/data/sorted_map.rs:134-157 | a rising listing whose interchangeable entries are alike comes out as it went in |
| HtaListing.MoveShows | core/rust/src/lang/data/priority_map.rs:50-75 | a rising listing with interchangeable entries that differ can come out with other bytes |
| HtaStability.SortByKeys | core/rust/src/hta.rs:344 | the stable sort by key bytes is determined by what stands under each key |
| HtaSoundness.DecodedIsSound | core/rust/src/hta.rs:182-198 | whatever bytes decode, the value is one the host types allow, that the encoder accepts and that lies within the decoder's depth |
| HtaSoundness.ReadFine | core/rust/src/hta.rs:550-842 | the same for any value read at any depth inside a frame |
| HtaFound.DecodesExactly | core/rust/src/hta.rs:182-198 | a frame decodes to a value if and only if it is the header and a form of the byte grammar that means the value: numbers by their places, tags by the inventory, lists in any order, decimal text of any length, nested no deeper than 256 |
| HtaFound.ReadExactly | core/rust/src/hta.rs:550-842 | the same for any value inside a frame, at any depth, whatever follows |
| HtaExact.FormReads | core/rust/src/hta.rs:550-842 | every form of the grammar is read whole to what it means |
| HtaFound.FormFound | core/rust/src/hta.rs:550-842 | whatever is read is spelled by a form that means it |
| HtaExact.DecimalParsed | core/rust/src/hta.rs:577-583 | text parses as an integer exactly when it is an optional minus sign and digits, to the sum of its places |
| HtaWritten.SetWritten | core/rust/src/hta.rs:281-292 | a set is written as a count and the bytes of its elements, each as often as it occurs, rising |
| HtaWritten.MapWritten | core/rust/src/hta.rs:339-351 | a map is written as a count and its entries, with the bytes of the keys rising |
| HtaWritten.LexIs | core/rust/src/hta.rs:281-292 | one byte string precedes another exactly when it is a prefix or smaller where they first differ |
| Utf8.Utf8Exactly | core/rust/src/hta.rs:585-599 | bytes are well-formed UTF-8 exactly when they are those of some scalar values, as section 3 of RFC 3629 writes them |
| HtaLaws.EncodableButNotReadable | core/rust/src/hta.rs:426-442 | two hundred nested structs encode and the decoder refuses the frame: the two depth measures differ |
| HtaData.TagRoundTrip | core/rust/src/hta.rs:9-47 | every tag byte announces the tag it was written for |
| HtaData.BERoundTrip | core/rust/src/hta.rs:501-505 | fixed-width big-endian numbers read back |
| Decimal.DecimalRoundTrip | core/rust/src/hta.rs:236-244 | decimal text of any integer reads back to it |
| Decimal.DecimalShortest | core/rust/src/hta.rs:236-244 | no text of an integer is shorter than the one written for it |
| HtaCodec.Encode | core/rust/src/hta.rs:173-180 | the encoder produces the specified frame exactly when there is one, and reports an error otherwise |
| HtaCodec.EncodeBare | core/rust/src/hta.rs:213-457 | appends the value's wire form when it is encodable at this depth and size, and fails otherwise |
| HtaCodec.EncodeSequence | core/rust/src/hta.rs:481-494 | appends length and items in order |
| HtaCodec.EncodeSet | core/rust/src/hta.rs:281-292 | encodes each element, sorts, and appends them in byte order |
| HtaCodec.EncodeMap | core/rust/src/hta.rs:339-351 | encodes each entry, sorts by key bytes, and appends them |
| HtaReaders.Reader.ReadValue | core/rust/src/hta.rs:550-802 | the cursor reader takes exactly what the reading function takes and stops where it stops |
| HtaReaders.Reader.Items | core/rust/src/hta.rs:803-809 | reads a counted list after the impossible-length guard |
| HtaReaders.Reader.EntryList | core/rust/src/hta.rs:810-818 | reads counted key and value pairs, with string keys where asked |
| HtaReaders.Decode | core/rust/src/hta.rs:182-198 | the frame decoder answers a value exactly when the grammar says the frame means it |
| HtaCanonicalReader.DecodeCanonical | core/rust/src/hta.rs:204-211 | decodes, has the host rebuild, encodes and compares: accepts exactly when the rebuilt value is written as the frame, answers with that value, which is regular, and accepts every frame of a steady value |
| GraphTheorems.AppendExtends | core/rust/src/component_value.rs:191-547 | an append succeeds exactly when every value in it is supported and the 32-bit indices suffice; it only adds post-order nodes, one per value, each referred to from above |
| GraphTheorems.AppendedIsWellFormed | core/rust/src/component_value.rs:299-547 | every graph built from a value has children strictly earlier, its root last and every node reachable, metadata included |
| GraphTheorems.RoundTrip | core/rust/src/component_value.rs:551-563 | reading the graph of a value back returns it with every tuple a vector if and only if its keyword names parse and its shapes are those of its types |
| GraphTheorems.UnparsedKeyword | core/rust/src/component_value.rs:311 | the keyword `a/b/c` is flattened to one node that is refused on reading |
| GraphTheorems.SharingDoesNotShow | core/rust/src/component_value.rs:1353-1553 | on any well-formed graph the table-driven reading succeeds exactly when plain recursive unfolding does, with the same value |
| GraphTheorems.TableUnfolds | core/rust/src/component_value.rs:1353-1513 | the table holds what following references gives, and a failing table has a node whose unfolding fails |
| GraphMeaning.MaterializeExactly | core/rust/src/component_value.rs:1353-1553 | a well-formed graph is read to a value if and only if its root stands for the value: a node's own data is the value's and its references stand for the value's parts, metadata included, whatever is shared |
| GraphMeaning.UnfoldExactly | core/rust/src/component_value.rs:1353-1513 | the same for any node, following its references |
| GraphMeaning.FlattenedStands | core/rust/src/component_value.rs:299-547 | the graph made of a sound value stands for it, with every tuple a vector |
| GraphLaws.MetaBack | core/rust/src/component_value.rs:1581-1640 | metadata carried as values converts back to the same metadata |
| GraphLaws.ChildrenOfNode | core/rust/src/component_value.rs:101-167 | the children of a value's node are exactly the places of its parts, in order |
| GraphLaws.AssembleBack | core/rust/src/component_value.rs:1353-1688 | a node whose children came back rebuilds its value exactly when the value is readable |
| GraphData.CountKids | core/rust/src/component_value.rs:299-547 | a value takes one node and those of its parts, no more |
| GraphBuilders.GraphBuilder.PushNode | core/rust/src/component_value.rs:191-196 | a node goes to the next index, or the limit is reported |
| GraphBuilders.GraphBuilder.AppendValue | core/rust/src/component_value.rs:299-505 | the builder grows its node list as specified and reports the first refusal |
| GraphBuilders.GraphBuilder.AppendSequence | core/rust/src/component_value.rs:507-522 | items, then metadata, then the node |
| GraphBuilders.GraphBuilder.AppendMapping | core/rust/src/component_value.rs:524-537 | pairs, then metadata, then the node |
| GraphBuilders.GraphBuilder.AppendPairs | core/rust/src/component_value.rs:539-547 | each key, then its value; a failure stops there |
| GraphBuilders.GraphBuilder.AppendMetadata | core/rust/src/component_value.rs:198-216 | metadata entries are appended as key and value nodes, and absent metadata as none |
| GraphBuilders.GraphBuilder.AppendMetadataValue | core/rust/src/component_value.rs:218-297 | a metadata value is appended as the very nodes of the value it stands for |
| GraphBuilders.Validate | core/rust/src/component_value.rs:1314-1351 | accepts exactly the non-empty graphs with backward references whose last node is the root and reaches every node |
| GraphBuilders.Search | core/rust/src/component_value.rs:1335-1346 | the worklist terminates and collects exactly the indices the root reaches |
| GraphBuilders.MaterializeGraph | core/rust/src/component_value.rs:1353-1513 | the front-to-back loop answers with what the root stands for, and fails where it stands for nothing |
| GraphBuilders.Carry | core/rust/src/component_value.rs:551-563 | building, validating and reading back returns the canonical value exactly for supported, sound values within the index limit |
| FileMeaning.NormaliseLoop | core/rust/src/file.rs:176-211 | the push and pop loop answers what the pieces of a path mean: those names that no later `..` takes back, in order; outside the root exactly when some front has more `..` than names and no drive before; else a drive, a NUL or a backslash |
| FileMeaning.NormaliseMeans | core/rust/src/file.rs:176-211 | the same of normalisation as a function, for every path and the one way of cutting it at its slashes |
| FileMeaning.ReduceMeans | core/rust/src/file.rs:185-205 | the stack left by some pieces is the list of names that survive: from a survivor on, names always outnumber the `..` |
| FileMeaning.SplitExactly | core/rust/src/file.rs:186 | a path is cut at its slashes in one way |
| FileMeaning.DotDotUndoes | core/rust/src/file.rs:189-193 | going down to a name and up again changes nothing, whatever follows |
| FileMeaning.NormaliseAlike | core/rust/src/file.rs:176-211 | two paths that mean the same still do when the same is added to both |
| FileMeaning.JoinMeans | core/rust/src/file.rs:213-217 | joining is normalising the two with a slash between them, or failing as the base does |
| FileMeaning.ResolveMeans | core/rust/src/file.rs:219-225 | a path begun at the root stands alone; any other is joined to the base |
| FileMeaning.ParentMeans | core/rust/src/file.rs:227-238 | the parent of a path is the path with `..` after it, and the root has none |
| FileMeaning.DriveIs | core/rust/src/file.rs:194-198 | a drive is a piece that begins with a letter and a colon |
| FilePaths.PathIsNormal | core/rust/src/file.rs:176-211 | a path of proper segments is already normal and splits back into them |
| FilePaths.NormaliseIdempotent | core/rust/src/file.rs:176-211 | normalising twice is normalising once |
| FilePaths.PathInjective | core/rust/src/file.rs:176-211 | one normal path per list of segments |
| FilePaths.ParentOfPath | core/rust/src/file.rs:227-238 | the parent drops exactly the last segment |
| FilePaths.ResolveChild | core/rust/src/file.rs:213-225 | resolving a segment against a directory appends it |
| FilePaths.BelowIsPrefix | core/rust/src/file.rs:1258-1262 | starting with the path and a slash holds of exactly the paths strictly below |
| FileTree.TreeBySegments | core/rust/src/file.rs:995-998 | the flat map is a tree of paths if and only if it is a tree of segment lists |
| FileLaws.MakeDirsFails | core/rust/src/file.rs:1023-1047 | making parents fails exactly when a file is in the way, and has then changed nothing |
| FileLaws.MakeDirsWorks | core/rust/src/file.rs:1023-1047 | making parents adds the missing directories on the way and nothing else, keeping the tree |
| FileLaws.EnsureParentEffect | core/rust/src/file.rs:1023-1055 | either nothing changes or the parent is a directory of a tree extended only on the way to it, and which of the two is decided beforehand |
| FileLaws.WriteEffect | core/rust/src/file.rs:1084-1119 | a write goes through exactly when its target can be a file; it then sets that one file, and a failing write changes nothing even when asked to make parents |
| FileLaws.MkdirEffect | core/rust/src/file.rs:1159-1177 | mkdir succeeds exactly when stated, keeps the tree, and changes nothing on failure |
| FileLaws.DeleteEffect | core/rust/src/file.rs:1179-1201 | a delete succeeds exactly when stated, then removing one file or empty directory, or nothing that was missing; a failing one changes nothing |
| FileLaws.CopyEffect | core/rust/src/file.rs:1203-1239 | a copy succeeds exactly when its source is a file and its target writable, duplicates the bytes, leaves the source, and changes nothing on failure |
| FileMoves.MoveEffect | core/rust/src/file.rs:1241-1295 | a move between two places succeeds exactly when stated and then carries the subtree over by a bijection on suffixes, meets no existing node and touches nothing else but new parents; a failing move changes something exactly when its source is missing and parents had to be made |
| FileMoves.MoveMakesParents | core/rust/src/file.rs:1241-1295 | moving a missing path into a missing directory of an empty filesystem, with parents asked for, fails and leaves exactly that directory behind |
| FileMoves.MoveNowhere | core/rust/src/file.rs:1249-1262 | a move refused up front, or onto itself, changes nothing, and only the latter succeeds, when the path is there |
| FileMoves.RelocateAt | core/rust/src/file.rs:1280-1293 | what the relocated map holds at any path |
| FileMoves.RelocateTree | core/rust/src/file.rs:1280-1293 | relocating a subtree to a free place under a directory keeps the tree |
| FileMoves.ApplyKeepsTree | core/rust/src/file.rs:1084-1295 | every operation, failing or not, keeps the tree, and only a failing move may change anything |
| FileMoves.FreshRunIsTree | core/rust/src/file.rs:999-1295 | every run of operations from an empty filesystem ends at a tree: a root directory, normal keys, every other node in a directory |
| FileListing.ChildBySegments | core/rust/src/file.rs:1144-1154 | the prefix test of a listing picks exactly the paths one segment longer |
| FileListing.UnderAll | core/rust/src/file.rs:361-380 | every file below a directory is at or below exactly its children |
| FileListing.SubtreeShrinks | core/rust/src/file.rs:361-380 | a child's subtree is strictly smaller, so a walk ends |
| FileProvider.MemoryFileProvider.constructor | core/rust/src/file.rs:1000-1009 | a new filesystem is a root directory alone |
| FileProvider.MemoryFileProvider.EnsureParent | core/rust/src/file.rs:1023-1055 | the loop over segments makes the specified directories |
| FileProvider.MemoryFileProvider.ReadBytes | core/rust/src/file.rs:1075-1082 | returns the bytes of exactly the stored files |
| FileProvider.MemoryFileProvider.WriteBytes | core/rust/src/file.rs:1084-1119 | performs the specified write in place and keeps the tree |
| FileProvider.MemoryFileProvider.MkdirPath | core/rust/src/file.rs:1159-1177 | performs the specified mkdir in place and keeps the tree |
| FileProvider.MemoryFileProvider.DeletePath | core/rust/src/file.rs:1179-1201 | performs the specified delete in place and keeps the tree |
| FileProvider.MemoryFileProvider.CopyPath | core/rust/src/file.rs:1203-1239 | performs the specified copy in place and keeps the tree |
| FileProvider.MemoryFileProvider.MovePath | core/rust/src/file.rs:1241-1295 | performs the specified move in place, key by key in any order, and keeps the tree |
| FileProvider.MemoryFileProvider.Entries | core/rust/src/file.rs:1132-1157 | lists exactly the children of a directory in ascending path order |
| FileProvider.MemoryFileProvider.WalkCollect | core/rust/src/file.rs:361-380 | terminates and pushes exactly the files at or below a path, each once |
| FileProvider.MemoryFileProvider.Walk | core/rust/src/file.rs:483-495 | lists exactly the files at or below a path, in strictly ascending order |
| JsonLaws.JsonRoundTrip | core/rust/src/json.rs:7-321 | compact or pretty text of a value reads back to it, with canonical integers, vectors and ordered maps, if and only if it nests within 256 levels and its keys are distinct |
| JsonLaws.ValueReads | core/rust/src/json.rs:164-321 | the same for a value inside any text that cannot continue a number, at any depth |
| JsonSoundness.ReadIsStable | core/rust/src/json.rs:7-27 | any accepted text holds a value in canonical form within the limits that has a text of its own, and reading that text, compact or pretty, gives the same value |
| JsonSoundness.ReadSettles | core/rust/src/json.rs:164-321 | the same of every value read inside a text, at its depth |
| JsonExact.ReadExactly | core/rust/src/json.rs:7-321 | a text is read to a value if and only if it spells the value: some tree of the grammar, with spaces of the four kinds, every escape, hexadecimal digits of both cases, integers, arrays and objects with keys that differ, nested no deeper than 256, has that text and that meaning |
| JsonExact.TreeReads | core/rust/src/json.rs:164-321 | every tree of the grammar is read whole to what it means, whatever cannot go on with it follows |
| JsonExact.TreeFound | core/rust/src/json.rs:164-321 | whatever is read is spelled by a tree of the grammar within the limits |
| JsonExact.SpelledOnce | core/rust/src/json.rs:164-321 | no text spells two values |
| JsonExact.WrittenSpells | core/rust/src/json.rs:29-98 | the text written for a value spells it, in canonical form, exactly within the limits |
| JsonNeat.WrittenNeatly | core/rust/src/json.rs:29-123 | the writer's layout: compact text has no space; pretty text has each item on its own line, two spaces in for every level, one space after a colon; characters are escaped only where they must be, by letter before four small digits |
| JsonSpelling.UnicodeExactly | core/rust/src/json.rs:308-321 | four digits are read exactly where they spell a scalar value |
| JsonSpelling.ScalarReads | core/rust/src/json.rs:308-321 | each of the spellings of a scalar value below 2^16, every digit small or capital, reads to it |
| JsonSpelling.HexIs | core/rust/src/json.rs:314-317 | the value of a hexadecimal digit is its place among the small or the capital digits |
| JsonSpelling.IntegerReads | core/rust/src/json.rs:197-223 | a number of the grammar reads to the sum of its places |
| JsonSpelling.IntegerFound | core/rust/src/json.rs:197-223 | what is read as a number is spelled as one, and nothing that could go on with it follows |
| JsonSpelling.MarksRead | core/rust/src/json.rs:280-307 | the marks of a string read as the characters they mean |
| JsonSpelling.MarksFound | core/rust/src/json.rs:280-307 | what is read as a string is spelled by marks |
| JsonLaws.NumberReads | core/rust/src/json.rs:197-223 | the decimal text of any integer is read whole and compacted |
| JsonLaws.StringReads | core/rust/src/json.rs:105-123 | any string, escaped, reads back character for character |
| JsonParsers.Parser.ReadOne | core/rust/src/json.rs:164-188 | the parser takes what the reading function takes and stands where it stops |
| JsonParsers.Parser.NumberText | core/rust/src/json.rs:197-223 | reads an integer with no leading zero, fraction or exponent |
| JsonParsers.Parser.Array | core/rust/src/json.rs:224-245 | reads items up to the closing bracket, refusing a trailing comma |
| JsonParsers.Parser.ObjectBody | core/rust/src/json.rs:246-279 | reads entries up to the closing brace, refusing repeated keys |
| JsonParsers.Parser.Quote | core/rust/src/json.rs:280-307 | reads a string with its escapes |
| JsonParsers.Parser.UnicodeEscape | core/rust/src/json.rs:308-321 | reads exactly four hexadecimal digits, small or capital, that spell a scalar value, and fails where none do |
| JsonParsers.ReadText | core/rust/src/json.rs:7-15 | answers a value exactly when the text spells it in the grammar |
| JsonParsers.Writer.Encode | core/rust/src/json.rs:29-98 | appends exactly the specified text, or fails when there is none |
| JsonParsers.Writer.PutString | core/rust/src/json.rs:105-123 | appends the quoted string |
| JsonParsers.WriteThenRead | core/rust/src/json.rs:7-27 | writing and reading returns the canonical value exactly within the limits |
| PackageMeaning.OrderSound | core/rust/src/package_catalog.rs:266-344 | an order lists exactly what the targets need, each once, every package after all it depends on, where what depends on what is read off the list of packages |
| PackageMeaning.OrderExactly | core/rust/src/package_catalog.rs:266-373 | there is an order if and only if every target names one definition and nothing it needs is unclear or circular |
| PackageMeaning.OrderError | core/rust/src/package_catalog.rs:266-344 | every error has its cause: a target that names nothing, a real cycle or an ambiguous dependency below a target |
| PackageMeaning.DepsAre | core/rust/src/package_catalog.rs:305-341 | the dependencies of a package fail exactly when an entry fits two definitions, and else are exactly the definitions its entries name |
| PackageMeaning.ResolveIs | core/rust/src/package_catalog.rs:346-373 | a name stands for itself where it is defined, else for the one definition with its last part; it is vague exactly when two have it |
| PackageMeaning.EdgeIs | core/rust/src/package_catalog.rs:305-341 | the edges that are followed are those of the list |
| PackageLaws.ListSound | core/rust/src/package_catalog.rs:266-344 | the same as OrderSound over resolved dependencies, as the visit follows them |
| PackageLaws.VisitSound | core/rust/src/package_catalog.rs:290-344 | a visit keeps the list ordered and closed and ends with its package visited |
| PackageLaws.VisitFails | core/rust/src/package_catalog.rs:290-344 | a failing visit has met a cycle through the names being visited, or an ambiguous dependency |
| PackageLaws.ListedIsOrderable | core/rust/src/package_catalog.rs:290-344 | whatever is listed reaches only what is listed, with no cycle |
| PackageOrders.PackageOrder.ResolveName | core/rust/src/package_catalog.rs:354-373 | a name resolves to itself, to the one definition with its last part, or to none |
| PackageOrders.PackageOrder.Dependencies | core/rust/src/package_catalog.rs:305-335 | resolved dependencies sorted, each once, or an ambiguous one as the error; PackageMeaning.DepsAre says which these are |
| PackageOrders.PackageOrder.VisitName | core/rust/src/package_catalog.rs:290-344 | the recursive visit updates its sets and list as specified and terminates |
| PackageOrders.PackageDependencyOrder | core/rust/src/package_catalog.rs:266-288 | succeeds exactly when every target names a definition that needs nothing unclear or circular, then gives an order of all that is needed with dependencies first, and else blames a target for what is wrong with it |
| PackageProfile.Expand | core/rust/src/package_catalog.rs:192-201 | a selector picks exactly the available namespaces it matches, ascending, each once |
| PackageProfile.PackageNamespaces | core/rust/src/package_catalog.rs:204-213 | a package owns exactly the available namespaces some selector of it matches, ascending, each once |
| PackageProfile.WholeOrder | core/rust/src/package_catalog.rs:256-261 | a whole profile has an order if and only if no package in it reaches a cycle or an ambiguous dependency |
| PackageProfile.ValidateDefinitions | core/rust/src/package_catalog.rs:241-261 | accepts exactly the profiles with disjoint ownership and an order; a reported overlap is owned twice |
| StringOrder.SortDedupHolds | core/rust/src/package_catalog.rs:336-337 | sorting and removing repeats keeps the members, ascending |
| StringOrder.BeforeIs | core/rust/src/package_catalog.rs:336 | one string comes before another exactly when it is a proper prefix or smaller where they first differ |
| SealedLaws.GuessesGrow | core/rust/src/distribution.rs:309-334 | descriptor lengths never decrease from round to round |
| SealedLaws.FixedPointIsFixed | core/rust/src/distribution.rs:309-334 | a returned descriptor is the one printed with the archives laid right after it |
| SealedSpacing.PackagesConverge | core/rust/src/distribution.rs:309-334 | any number of archives of at least the size of a package converges within the sixteen rounds when the payload is below 10^10 bytes |
| SealedSpacing.ThousandConverge | core/rust/src/distribution.rs:309-334 | up to a thousand such archives converge below 10^13 bytes |
| SealedSpacing.SpacedConverge | core/rust/src/distribution.rs:309-334 | archives of at least m bytes converge when a bound that shrinks by m each round becomes small in time |
| SealedSpacing.FewPass | core/rust/src/distribution.rs:315-326 | a move of all places carries at most one of them past a mark, and one more for every m bytes of the move |
| SealedRounds.ThirteenConverge | core/rust/src/distribution.rs:309-334 | up to thirteen archives converge within the sixteen rounds, whatever their sizes and wherever they lie |
| SealedChain.FifteenMayNot | core/rust/src/distribution.rs:309-334 | fifteen archives of at least the size of a package, each just below another power of ten, do not converge, although the length reached last is the right one |
| SealedChain.NotReached | core/rust/src/distribution.rs:309-334 | such a list exists, with a descriptor that spells its places and is true of itself |
| SealedOpening.SealThenOpen | core/rust/src/distribution.rs:83-182 | a sealed file opens to the same entry, archives and host length exactly when its descriptor passes the checks on entry, lengths, primaries and identities |
| SealedOpening.SealedContents | core/rust/src/distribution.rs:647-658 | each archive's bytes are found where the manifest says |
| SealedOpening.ResealKeepsHost | core/rust/src/distribution.rs:106-109 | sealing a sealed file again starts from the first host |
| SealedOpening.OpenedTiles | core/rust/src/distribution.rs:443-535 | any file that opens is its host, a descriptor, its archives end to end and a footer, with nothing left over and every digest matching |
| SealedExact.OpensExactly | core/rust/src/distribution.rs:443-535 | a file opens to a manifest if and only if it is host, length, descriptor, archives and footer, byte by byte, with numbers and digests of those parts and a descriptor that tells the manifest and may say what it says |
| SealedExact.UnsealedExactly | core/rust/src/distribution.rs:486-500 | a file is taken to be unsealed exactly when the letters HARAEXE1 do not stand 96 bytes before its end |
| SealedExact.DescriptorIs | core/rust/src/distribution.rs:537-576 | the checks on a descriptor pass exactly when its entry is a namespace and a name, no archive is empty, one is primary and identities differ |
| SealedOpening.FooterReads | core/rust/src/distribution.rs:383-405 | a footer reads back to its four fields |
| SealedExecutable.DescriptorFixedPoint | core/rust/src/distribution.rs:309-334 | the loop that rewrites places returns the specified fixed point and the places it describes |
| SealedExecutable.SealedFooter | core/rust/src/distribution.rs:383-405 | fills a zeroed buffer with every field in its place |
| SealedExecutable.ValidateArchives | core/rust/src/distribution.rs:613-645 | accepts exactly archives that tile the payload after the descriptor and match their digests |
| Numeric.IntegerFloatExact | core/rust/src/numeric.rs:119-145 | comparing an integer of any size with a finite float agrees with comparing the real numbers they denote |
| Numeric.CompareExact | core/rust/src/numeric.rs:220-241 | any two finite numbers compare as the reals they denote, whatever their representation |
| Numeric.FloatsExact | core/rust/src/numeric.rs:220-241 | comparing two floats by sign and remaining bits agrees with comparing the reals they denote, both zeros being equal |
| Numeric.ComparePreorder | core/rust/src/numeric.rs:220-258 | the order is total, transitive, antisymmetric up to equal numbers, and equality is equality of numbers |
| Numeric.FloatToIntegerExact | core/rust/src/numeric.rs:330-362 | the conversion answers exactly for integral floats, with the very number |
| Numeric.Scaled | core/rust/src/numeric.rs:127-139 | a float is its signed significand times a power of two, subnormals included |
| Numeric.DivisionRecomposes | core/rust/src/numeric.rs:167-185 | quotient and remainder recompose the dividend; the remainder is smaller than the divisor and has the dividend's sign; both are canonical |
| Numeric.NegateInvolutive | core/rust/src/numeric.rs:269-279 | negating a canonical integer twice returns it, the least machine integer included |
| WasmBinary.UnsignedExact | core/rust/src/direct_wasm.rs:440-453 | the integer loop accepts exactly the unsigned 32-bit grammar of the WebAssembly binary format, with its value |
| WasmBinary.UnsignedRoundTrip | core/rust/src/direct_wasm.rs:440-453 | the shortest encoding of every 32-bit number reads back |
| WasmLaws.SectionsTile | core/rust/src/direct_wasm.rs:80-138 | the bytes after the header are sections end to end, each of its written size, and the module is what they say in turn |
| WasmLaws.ExportsResolve | core/rust/src/direct_wasm.rs:140-164 | exports resolve if and only if each index lies in the imported-then-defined function space and its type exists, and then have that type |
| WasmLaws.SectionsKeepNames | core/rust/src/direct_wasm.rs:282-310 | in any module that is read no name is exported twice |
| WasmLaws.Inspected | core/rust/src/direct_wasm.rs:80-181 | an inspected module is tiled by its sections, its exports resolve in one index space, no name repeats, and each memory lists exactly the names it is exported under, sorted |
| WasmLaws.MemoriesNamed | core/rust/src/direct_wasm.rs:165-173 | the names of a memory are strictly rising and exactly those exported with its index |
| WasmSections.InspectExactly | core/rust/src/direct_wasm.rs:80-181 | an inspection answers if and only if the bytes are the header and sections of the grammar that declare a module with everything it exports, and it then shows that module: imports, memories, start, each export with the type of its function, each memory with its names rising |
| WasmSections.ModuleExactly | core/rust/src/direct_wasm.rs:97-138 | bytes are read to a module exactly when they declare it, section by section |
| WasmSections.FormReads | core/rust/src/direct_wasm.rs:107-138 | a section of the grammar adds what it declares |
| WasmSections.FormFound | core/rust/src/direct_wasm.rs:107-138 | a section that is read is one of the grammar that refers to what was declared before |
| WasmElements.BoundsRead | core/rust/src/direct_wasm.rs:364-387 | limits of the grammar, with no maximum, a maximum or a shared one, read to what they mean |
| WasmElements.BoundsFound | core/rust/src/direct_wasm.rs:364-387 | limits that are read are limits of the grammar |
| WasmElements.FunctionFound | core/rust/src/direct_wasm.rs:187-209 | a function type that is read is one of the grammar, its value types by their codes |
| WasmElements.DescFound | core/rust/src/direct_wasm.rs:222-255 | an import that is read is described by the grammar, with its types declared before, and adds what it describes |
| WasmElements.ExportFound | core/rust/src/direct_wasm.rs:282-310 | an export that is read is one of the grammar under a new name |
| WasmReaders.Cursor.Unsigned | core/rust/src/direct_wasm.rs:440-453 | the loop over bytes reads the specified integer |
| WasmReaders.Cursor.Name | core/rust/src/direct_wasm.rs:419-430 | reads a counted UTF-8 name inside the section |
| WasmReaders.Cursor.OneLimits | core/rust/src/direct_wasm.rs:364-387 | reads limits, refusing shared ones without a maximum and maxima below the minimum |
| WasmReaders.Cursor.Types | core/rust/src/direct_wasm.rs:187-209 | reads function types with at most one result |
| WasmReaders.Cursor.Imports | core/rust/src/direct_wasm.rs:211-262 | reads imports of all five kinds, collecting function types and memories |
| WasmReaders.Cursor.Functions | core/rust/src/direct_wasm.rs:264-269 | reads the type indices of defined functions |
| WasmReaders.Cursor.Exports | core/rust/src/direct_wasm.rs:282-310 | reads exports, refusing repeated names and unknown kinds |
| WasmReaders.Sections | core/rust/src/direct_wasm.rs:97-138 | reads section after section to the last byte |
| WasmReaders.InspectModule | core/rust/src/direct_wasm.rs:80-181 | answers exactly for bytes that declare a complete module, and shows what they declare |
| WasmReaders.NameMemories | core/rust/src/direct_wasm.rs:165-173 | each exported name goes to its memory and every list is sorted; an index without a memory is refused |
| CommandRouter.RunSound | core/rust/src/command.rs:211-299 | over every run of one application with its own snapshots ids and handles are unique, paths disjoint and routes valid; the generation never decreases, and an equal generation means the same routes |
| CommandRouter.ApplicationSound | core/rust/src/command.rs:181-299 | so it is for every run from the creation of an application |
| CommandRoutes.RouteFound | core/rust/src/command.rs:211-299 | through any run a route is found by its handle, and by its path where no longer path fits, if and only if it came, by an installation or a restored snapshot, and has not been uninstalled, reset, closed or left out by a restored snapshot since |
| CommandRoutes.RunRoutes | core/rust/src/command.rs:211-299 | after any run the table holds exactly the routes that came and were not removed since |
| CommandRoutes.RunSnapshots | core/rust/src/command.rs:260-268 | the snapshots of a run are exactly the routes of the times one was taken of an open application |
| CommandRoutes.UninstallTakes | core/rust/src/command.rs:250-258 | uninstalling removes the route of a handle and no other, keeps the order of the rest and moves the generation on by one, or changes nothing and says why |
| CommandRoutes.InstallAdds | core/rust/src/command.rs:211-248 | installing adds the route last under a handle no other has, if and only if the application is open, the route valid and its id and paths free; else it changes nothing and says why |
| CommandRoutes.RestoreIs | core/rust/src/command.rs:270-282 | restoring leaves exactly the routes of the snapshot, and the next handle one above the largest |
| CommandHandles.HandleComesBack | core/rust/src/command.rs:243-282 | after any run of a new application an installation gives out a handle that was given out before if and only if the handle counter once stood higher |
| CommandHandles.IssuedUpToPeak | core/rust/src/command.rs:243-282 | the new handles of a run are exactly the numbers below the highest the counter reached |
| CommandHandles.HandlesFresh | core/rust/src/command.rs:243-282 | while only snapshots reaching up to the last handle are restored no handle is given out twice |
| CommandHandles.HandleTwice | core/rust/src/command.rs:270-282 | going back to an empty snapshot gives out the first handle a second time |
| CommandRouter.MatchIsLongest | core/rust/src/command.rs:367-396 | matching finds a longest fitting path, or none fits |
| CommandRouter.MatchIgnoresOrder | core/rust/src/command.rs:367-396 | with disjoint paths the match is the same route and length whatever the order of installation |
| CommandRouter.HandlerIsTheMatched | core/rust/src/command.rs:301-341 | whatever changed since, a handler handed out for a parsed request is that of the route matched at parse time |
| CommandRouter.HandlerIsServed | core/rust/src/command.rs:317-341 | a parsed request is served if and only if the application is open and its generation unchanged |
| CommandRouter.InstallSound | core/rust/src/command.rs:211-248 | installing keeps the table sound and never hands out a handle in use |
| CommandRouter.UninstallSound | core/rust/src/command.rs:250-258 | uninstalling keeps the table sound and leaves no route with the handle; CommandRoutes.UninstallTakes says what stays |
| CommandArguments.ParsePositionals | core/rust/src/command.rs:587-630 | accepts exactly the word counts the arguments can take and gives each argument its word, nothing, or the rest |
| CommandArguments.ParseOption | core/rust/src/command.rs:632-690 | takes an option's value and brings the map up to date, refusing what may not stand so or is given twice |
| CommandArguments.ParseRouteArguments | core/rust/src/command.rs:523-585 | succeeds exactly on the words a valid route understands; every option ends as its default or what was given, and the impossible default type never occurs |
| CommandLine.UnderstoodExactly | core/rust/src/command.rs:523-630 | a route understands exactly the lines of the grammar of command lines (bare words, options under long or short names with their values, everything bare after `--`) that name once-only options once and have as many words as its arguments take |
| CommandLine.ParsedMeans | core/rust/src/command.rs:523-690 | every option and argument comes out as the line gives it: flags, default and given values in order, the word at an argument's place or all words from there |
| CommandLine.ScanExactly | core/rust/src/command.rs:540-585 | words are scanned to events exactly when a line of the grammar spells the words and means the events |
| CommandApp.ValidateRoute | core/rust/src/command.rs:415-507 | accepts exactly the valid routes |
| CommandApp.App.InstallRoute | core/rust/src/command.rs:211-248 | succeeds exactly when the application is open, the route valid and its place free, and then adds that route alone, last; else nothing changes |
| CommandApp.App.UninstallRoute | core/rust/src/command.rs:250-258 | answers true exactly when a route has the handle, and then removes it and keeps all others in order; else nothing changes |
| CommandApp.App.TakeSnapshot | core/rust/src/command.rs:260-268 | a snapshot is the routes, sound by themselves |
| CommandApp.App.RestoreSnapshot | core/rust/src/command.rs:270-282 | the routes come back under a new generation, with handles after the largest restored |
| CommandApp.App.ResetRoutes | core/rust/src/command.rs:284-291 | routes are cleared; an empty table keeps its generation |
| CommandApp.App.CloseApp | core/rust/src/command.rs:293-299 | closing clears the routes once |
| CommandApp.App.MatchWords | core/rust/src/command.rs:367-396 | the running best over all paths is the longest match |
| CommandApp.App.Parse | core/rust/src/command.rs:301-315 | a request is issued exactly when a route matches and understands the remaining words; it remembers handle and generation, carries the route's id and path, and every option and argument holds what the words give it |
| CommandApp.App.HandlerFor | core/rust/src/command.rs:317-341 | hands out the handler of the remembered route, or says why not |

## Left out

- The branch for a local binding that shadows `resolve`, the special-form branch of an application it leads to, and metadata on the targets of `def` and `set!` in `fiber.rs`.
- Coroutines, yields, tracing, namespace switching, macros, destructuring patterns and semantic recording in `fiber.rs`: they rest on code outside the evaluator; the host's own state is one opaque token.
- The `Running` state of a fiber: it cannot be seen between two calls.
- EvalFibers.EvalFiber.Accept: the source loops forever on a program that does; the method takes a ghost count of steps after which the run has stopped.
- EvalFibers.RunProgram: for the same reason it is stated for programs the direct evaluator finishes; FiberRefinement.FiberIsDirect covers both directions.
- Var references, exception values, error results and byte buffers in `hta.rs`; which error an encoding that fails reports first; integer text with a plus sign or underscores.
- HtaFound.DecodesExactly: is about frames without these; the decoder's own refusal of error results is part of it.
- The plain decoder answers with the listing in the frame; what the host makes of it is `HtaRebuild.Rebuilt`.
- HtaAcceptance.AlwaysExactly: assumes the laws of equality and of a total preorder, with equality decided by the encodings; `Value::cmp` breaks transitivity between lists and vectors (the vector of 1 equals the list of 1, which is less than the list of 2, which is less than that vector), and nothing is said of sorted keys that mix them.
- HtaAcceptance.MayExactly: rests on the same laws, and on look-ups that find what was stored.
- The `:display` entry of a result's context: it never travels, and a result is modelled with the context that does, whatever kind of map it came in.
- A trie is taken to visit its keys in the order of their bytes, which is that of their characters in UTF-8.
- Detail text of wire-invalid reports in `component_value.rs`, and the Wasmtime type lowering around the graph.
- File entries beyond path and node, temporary names, the host filesystem, promises around results; the clock is read once per operation.
- FileProvider.MemoryFileProvider.WalkCollect: states which files are pushed and how often, not in which order; Walk sorts them.
- Error offsets in JSON reports.
- Bundles, lock files, the EDN readers and the lookup of one definition in `package_catalog.rs`.
- SealedOpening.SealThenOpen: the digest and the printing and parsing of the descriptor are parameters; that parsing undoes printing is a stated assumption.
- SealedRounds.ThirteenConverge: says nothing of more archives, for which SealedSpacing.PackagesConverge needs archives of the size of a package; assumes that the descriptor's length is a constant plus the digits of the places, places below 2^63, and for more than seven archives at least seven characters of constant text.
- SealedSpacing.PackagesConverge: assumes the same of the descriptor, with at least 92 characters of constant text, and that a package, a zip file holding `package.edn`, has at least 120 bytes; between 10^10 and 10^17 bytes nothing is said of more than a thousand packages.
- File handling, installation and directory distributions in `distribution.rs`.
- Rounding float arithmetic, hashing, bit operations, quotient on floats and truncation of floats in `numeric.rs`; the processor's comparison of two finite floats is taken to be that of their bits.
- Error texts and the direct-import policy of `direct_wasm.rs`.
- Application configuration checks and response handling in `command.rs`; handles and generations are unbounded.
- JIT, native processes, clocks, cryptography, registries and the other modules of the core.
