# HPCC Platform: types, record meta data and event analysis

Dafny models, with proofs, of six parts of the platform's `common` libraries. Each file holds one
module.

- **Hash-consed types** (`TypeCache`, `TypeRequests`). ECL types are shared through a weak table: an entry can have
  reached a count of zero before it is removed. Any number of threads build candidates, look them up,
  link, release and dispose of types, one atomic access or one locked call at a time. The invariant of
  this protocol is kept by every step, and the theorems about runs follow from it. A type's key is what
  `getHash` and `equals` look at, with the base type by address; its shape is the structure all the way
  down. What each call asks for is read off the run's steps alone, and compared with what it gets; no
  run deadlocks, and every call ends within a number of steps that its type's depth gives.
- **Numbers, modifiers and schemas of types** (`IntegerFolding`, `NumericTypes`, `Modifiers`,
  `SchemaBuilder`, `SchemaTypes`, `SchemaPicture`, `SchemaRun`, `SchemaMeaning`). Constants are 64-bit words; decimal
  values are whole multiples of 10^-32, so "every value survives" is a statement about sets of integers.
  The XML schema builder is a class with the source's stacks; its calls carry the frames that are open as
  a ghost argument, and a run of calls is compared with a function that says what it prints, line breaks
  included. The types that a schema refers to are compared with those that it defines, and its markup is
  read as XML Schema reads it.
- **Record meta data** (`TypeCodec`, `RecordMeta`, `MetaBuffer`, `RecordElements`, `CodecForms`). The byte
  forms of types and of element trees are functions, also told byte by byte; the elements, the builder with its open and closed states,
  and the buffer with its read cursor are classes whose methods are proved against those functions.
- **Event grouping** (`Events`, `MetaState`, `MetaMeaning`, `Extractor`, `GroupTree`, `GroupBy`,
  `GroupOrder`, `GroupRender`, `GroupValues`, `GroupReport`, `RecordedGroups`). Metadata is gathered from the plane, file and query events of one
  source or several. The tree of `CGroupNode` objects with their multimaps refines a tree of maps, and
  that is shown to be a group-by of the events. An accumulator is modelled as the sequence of events it
  has been given, so that what any accumulator computes follows.
- **Event dumps** (`DumpRun`, `DumpJson`, `DumpXml`, `DumpTree`, `DumpAgreement`, `DumpMeaning`). Three
  visitors, as classes, are driven by the same calls; what they produce is parsed and compared with one
  document, which is compared with the events of the run.
- **Event filter** (`FilterTerms`, `FilterMeaning`, `EventFilter`, `Traversal`). The terms and the filter are classes that
  remember verdicts; a traversal puts the collector of metadata in front of the filter.
- **Resource locator** (`ResourceLocator`, `ImageLayout`). Images are also described as the structures that
  they hold, field by field.

## What the proofs found

- A plane recorded without a name is hashed as the empty text, while a plane that is missing adds
  nothing to the hash. Both have the empty value, so one group of events is split in two
  (`Extractor.UnnamedPlaneSplitsAGroup`). `MetaState.UnnamedPlaneArises` gives two events that lead to
  such a plane. `GroupBy.SplitByUnnamedPlane` says exactly when it splits a group, for any hash and any
  level; with FNV-1a, levels that have plane an odd number of times are always split
  (`GroupBy.OddLevelsSplit`). It never happens to recordings that name their planes
  (`RecordedGroups.GroupsOfNamedPlanes`).
- With several sources, an event of a file that its source never announced keeps the number it came with.
  It is then taken to be about another file exactly when that number is one of those given out
  (`MetaState.EventsResolve`).
- The schema builder looks decimal types up by digits and precision, without the sign. A schema with
  `decimal5` and `udecimal5` refers to both and defines the first that was named
  (`SchemaRun.SchemaOfBothSigns`); otherwise every type it refers to is defined (`SchemaRun.Schema`).
- `preservesValue` accepts decimals that do not fit in signed integers of 3, 5 and 8 bytes
  (`NumericTypes.DecimalToInt`), and refuses decimals that do hold such integers
  (`NumericTypes.IntToDecimal`): in both cases `getDigits` counts one digit more than the signed type has.
- A decimal type of unknown size is defined with -15 digits, which XML Schema does not allow
  (`SchemaMeaning.UnknownDigitsAreNegative`).
- Promoting an 8-byte unsigned with a signed integer does not keep all values; it is the only such pair
  (`NumericTypes.PromotionHoldsBoth`).
- Several types are not read back from their byte form as they were written: packed integers, bit fields
  with another store size, keyed blobs, modified types, tables without a row, and those whose codes the
  reader does not know (`TypeCodec.TypeReadsBack`). A field without a name gets an empty one.
  `RecordMeta.ElementBack` says exactly which record meta data survives.
- Filter terms remember verdicts. A pattern added later, or a service that becomes known later, need not
  be seen (`FilterTerms.LatePatternIsMissed`, `FilterTerms.LateServiceIsMissed`); `FilterTerms.AskAll`
  says exactly when a trace's remembered answers are still those of the patterns. A late service is
  missed only by a caller that uses the filter without the pre-scan that `preScanRequired` asks for
  (`eventoperation.cpp:171-177`); a traversal, which does the pre-scan, never misses one
  (`Traversal.Traverse`).
- Fully unqualifying a type throws when a modifier lies below a type that cannot be made again, such as a
  pointer or an array (`Modifiers.FullyUnqualifiedStrips`).

## Assumptions

- `SuperHashTable` is a table keyed by what `equals` compares; its probing and growth are not modelled.
- Link counts stay below DEAD_PSEUDO_COUNT.
- The FNV hash is a parameter of the grouping tree. Where its bits matter, 64-bit FNV-1a is defined and
  the fact about it is proved.
- `WildMatch` and `stricmp` are parameters of the filter, and the size of a type in memory is one of the
  record meta reader.
- For grouping and filtering, the metadata known at each event is given with the event. `MetaState` models
  how it is gathered from recorded files, with `deriveLogicalFileName` as a parameter, and `Traversal` and
  `RecordedGroups` join the two.
- An event carries attributes of its type, each at most once: `assignedAttributes` walks a fixed list.
- `formatValue` is a parameter of the report.
- Numbers are stored with their lowest byte first, as the platform's processors do.
- `std::sort` is modelled by an insertion sort, of which only the promise of a sort is used.

`dafny verify dfyconfig.toml` checks everything.

## Model

| member | source | states |
|---|---|---|
| `TypeCache.StepKeepsInv` | common/deftype/deftype.cpp:1790-1806 | every step of every thread, at the granularity of one atomic access, keeps the whole invariant: exact link counts, live base types, `observed` true to the table, one holder of the lock, one disposer per dying type |
| `TypeCache.EveryRunKeepsInv` | common/deftype/deftype.cpp:1790-1806 | so it holds after every run of any threads, of any length, and a type whose count has reached zero always has a thread disposing of it |
| `TypeCache.OneLiveTypePerKey` | common/deftype/deftype.cpp:1790-1806 | after any run at most one live type has a given structural key, and it is the one the table finds |
| `TypeCache.ObservedIffTableEntry` | common/deftype/deftype.cpp:210-231 | after any run an object is observed exactly when it is the table entry for its key |
| `TypeCache.BaseTypesStayLive` | common/deftype/deftype.cpp:540-556 | after any run the base type of every allocated type is live, whatever stage of disposal the type has reached |
| `TypeCache.PointerEqualityIsStructural` | common/deftype/deftype.cpp:195-206 | two live types are the same object exactly when they denote the same structure to any depth |
| `TypeCache.SameShapeSameAddress` | common/deftype/deftype.cpp:540-556 | the induction behind it: equal structures make equal keys at every level |
| `TypeCache.SameKeySameShape` | common/deftype/deftype.cpp:1185-1199 | two allocated types with the same key denote the same structure, since the key holds the base type by address |
| `TypeCache.ReturnsALinkedLiveType` | common/deftype/deftype.cpp:1790-1806 | whatever a call returns is live, is linked on behalf of the calling thread, and has the structure of the candidate |
| `TypeCache.GoalIsTheCandidate` | common/deftype/deftype.cpp:1790-1806 | the structure asked for is that of the candidate the caller built; until the result is chosen the heap is left alone |
| `TypeCache.NoAssertFailsAndNothingDangles` | common/deftype/deftype.cpp:210-231 | no run makes an assertion in addObserver, removeObserver or beforeDispose fail, and no step touches a freed object |
| `TypeCache.QuiescentTableIsExact` | common/deftype/deftype.cpp:1790-1806 | when no call is in progress the table lists exactly the allocated types and all are live: nothing has leaked |
| `TypeCache.FoundKeepsInv` | system/jlib/jiface.hpp:122-137 | linking a found entry, or giving up because its count is zero or dead, keeps the invariant |
| `TypeCache.FailedKeepsInv` | system/jlib/jsuperhash.cpp:351-381 | replacing a dying entry by the candidate keeps the invariant; the old entry is no longer observed |
| `TypeCache.LockedKeepsInv` | system/jlib/jsuperhash.cpp:533-552 | inserting the candidate, or finding an equal entry, keeps the invariant |
| `TypeCache.ReleasingKeepsInv` | system/jlib/jiface.hpp:138-160 | dropping a link keeps the invariant; the one who drops the last becomes the disposer |
| `TypeCache.DisposeLockedKeepsInv` | common/deftype/deftype.cpp:225-231 | removing a dying type only if it is still the entry keeps the invariant |
| `TypeCache.DeletingKeepsInv` | system/jlib/jiface.hpp:138-160 | freeing a type keeps the invariant, and its link to the base type passes to the thread that frees it |
| `TypeCache.NewKeepsInv` | common/deftype/deftype.cpp:540-556 | building a candidate over a linked base type keeps the invariant |
| `TypeRequests.ShapesAreBuilt` | common/deftype/deftype.cpp:540-556 | after any run every allocated type has the structure that the step which built it gives, its base type's being that given by the step which built that |
| `TypeRequests.NewIsAsked` | common/deftype/deftype.cpp:540-556 | a new type has just the fields and the base type asked for, and changes no other type |
| `TypeRequests.EveryCallServes` | common/deftype/deftype.cpp:1790-1806 | in every state of every run a call's candidate, and then its result, has the fields, base type and structure that the call's own step asks for |
| `TypeRequests.ReturnsWhatIsAsked` | common/deftype/deftype.cpp:1790-1806 | so what a call returns has the fields and base type that were asked for, and is live and linked for the caller |
| `TypeRequests.OneAddressIffOneRequest` | common/deftype/deftype.cpp:1790-1806 | two calls of any threads, whose results are both still live, were given one address if and only if they asked for the same fields over the same base type |
| `TypeRequests.LockIsHeld` | common/deftype/deftype.cpp:1790-1806 | in every state of every run the lock is free or held by a thread inside the critical block |
| `TypeRequests.NoDeadlock` | common/deftype/deftype.cpp:1790-1806 | while a call is in progress, some thread can take a step |
| `TypeRequests.CallsAreShort` | common/deftype/deftype.cpp:1790-1806 | whatever the other threads do, each step of a thread brings its call nearer to its end |
| `TypeRequests.EveryCallEnds` | common/deftype/deftype.cpp:1790-1806 | no call takes more than 6 d + 10 steps, where d is the depth of the type it is about |
| `TypeRequests.CallsReturn` | common/deftype/deftype.cpp:1790-1806 | and a call of commonUpType ends only by returning a result |
| `TypeRequests.HeldLinksCanBeUsed` | system/jlib/jiface.hpp:122-160 | and link, pass on and release whatever it holds |
| `TypeRequests.AnyTypeCanBeAskedFor` | common/deftype/deftype.cpp:540-556 | an idle thread can ask for any type over a base type it holds |
| `Events.SpelledDecimal` | common/eventconsumption/eventgrouping.cpp:252-265 | the decimal text of any number spells that number |
| `Events.DecimalInjective` | common/eventconsumption/eventgrouping.cpp:252-265 | different numbers have different texts, so grouping by text is grouping by number |
| `Events.NamesDiffer` | system/jlib/jevent.hpp:52-87 | the 35 attributes have different names |
| `MetaState.BestPlaneIsLongest` | common/eventconsumption/eventmetaparser.cpp:434-458 | the plane found for a path is one that the path lies on, and none has a longer path; none is found only if the path lies on none |
| `MetaState.FindBestPlane` | common/eventconsumption/eventmetaparser.cpp:434-458 | the loop finds that plane |
| `MetaState.MetaInfoState.TryRemapFileId` | common/eventconsumption/eventmetaparser.cpp:381-415 | an event gets the number of its source's file if several sources are open and that file was announced; remembering the last answer changes no answer |
| `MetaState.MetaInfoState.OnFileInformation` | common/eventconsumption/eventmetaparser.cpp:324-360 | a new path gets the next number, the source's file the number of its path, and the file the path, plane and logical name known for it; it fails exactly when the numbers are used up |
| `MetaState.MetaInfoState.OnEvent` | common/eventconsumption/eventmetaparser.cpp:310-379 | a plane is added or its conflict reported, a file is registered, a trace keeps its first service, and any other event is passed on with the number of its file, with one source or several |
| `MetaState.NamedPlanesStayNamed` | common/eventconsumption/eventmetaparser.cpp:310-379 | while every plane is announced with a name, no file is ever known to lie on a nameless one |
| `MetaState.FileOnNameless` | common/eventconsumption/eventmetaparser.cpp:345-354 | a file announced under a nameless plane, alone or for the first time, is known to lie on it, and an event about the file then has a nameless plane |
| `MetaState.UnnamedPlaneArises` | common/eventconsumption/eventmetaparser.cpp:310-379 | two events of one source that bring this about |
| `MetaState.RunIsSorted` | common/eventconsumption/eventmetaparser.cpp:324-360 | with several sources, after any run, the paths have the numbers 1 to their count, each path is known under its number and nothing else is, and each file of a source has the number of the path it was announced with first |
| `MetaState.EventsResolve` | common/eventconsumption/eventmetaparser.cpp:381-415 | so an event of an announced file is about the path its source announced; an event of a file not announced keeps its number, which stands for some other file's path if and only if it is one of those given out |
| `MetaState.NumbersArePaths` | common/eventconsumption/eventmetaparser.cpp:324-360 | files of any sources get one number if and only if they were announced with one path |
| `MetaMeaning.LiesOnMeans` | common/eventconsumption/eventmetaparser.cpp:441-452 | a path lies on a plane exactly if it is the plane's path or goes on from it at a separator |
| `MetaMeaning.PlaneInOrder` | common/eventconsumption/eventmetaparser.cpp:314-322 | the planes have different names, and a plane is refused if and only if a different one has its name |
| `MetaMeaning.PlanesAreAnnounced` | common/eventconsumption/eventmetaparser.cpp:314-322 | the planes known after a run are exactly those announced in it |
| `MetaMeaning.ServicesAreAnnounced` | common/eventconsumption/eventmetaparser.cpp:361-374 | a trace is known to belong to the service it was announced with first, and to none if it was not |
| `MetaMeaning.FilesAreAnnounced` | common/eventconsumption/eventmetaparser.cpp:324-360 | with one source a file is known under the path announced first, and under the logical name derived from the path announced last and the plane it lay on then |
| `MetaMeaning.KeysTellFiles` | common/eventconsumption/eventmetaparser.cpp:417-425 | two events are about one source's file exactly if instance, file number, channel and replica agree |
| `Extractor.GetHash` | common/eventconsumption/eventgrouping.cpp:279-373 | the loop computes the fold of the attributes' contributions, in order |
| `Extractor.IsEqual` | common/eventconsumption/eventgrouping.cpp:375-486 | answers yes exactly when the stored tuple is the tuple of the event's values; it raises only where a value does |
| `Extractor.SameAsStoredIsGetValue` | common/eventconsumption/eventgrouping.cpp:375-486 | for one attribute, the comparison and the value function, written separately, always agree, exception included |
| `Extractor.HashPartIsOfValue` | common/eventconsumption/eventgrouping.cpp:279-373 | what an attribute adds to the hash depends only on its value exactly when the event's plane is not a nameless one from the metadata |
| `Extractor.EqualValuesEqualHash` | common/eventconsumption/eventgrouping.cpp:279-373 | events with equal value tuples have equal hashes, for any hash function, unless a nameless plane is involved |
| `Extractor.HashIsOfValues` | common/eventconsumption/eventgrouping.cpp:279-373 | a level's hash depends on the event's values and on whether its plane is a nameless one from the metadata, and on nothing else |
| `Extractor.HashTellsUnnamedPlanes` | common/eventconsumption/eventgrouping.cpp:279-373 | for any hash and any level, events with equal values hash alike if and only if both planes, or neither, are nameless, or the level's hash of those values is the same either way |
| `Extractor.UnnamedPlaneParity` | common/eventconsumption/eventgrouping.cpp:279-373 | with a hash that tells the empty name, the lowest bit of the level's hash tells whether it was hashed an odd number of times |
| `Extractor.OddPlanesShow` | common/eventconsumption/eventgrouping.cpp:279-373 | so a level that has plane an odd number of times never has the same hash either way |
| `Extractor.NoPlanesShowNothing` | common/eventconsumption/eventgrouping.cpp:279-373 | and a level without plane always has |
| `Extractor.FnvParity` | common/eventconsumption/eventgrouping.cpp:51-62 | the lowest bit of 64-bit FNV-1a is the parity of the seed and all the bytes |
| `Extractor.FnvTellsEmptyNames` | common/eventconsumption/eventgrouping.cpp:51-62 | FNV-1a is such a hash |
| `Extractor.UnnamedPlaneSplitsAGroup` | common/eventconsumption/eventmetaparser.cpp:198-216 | a concrete pair of events with the same plane value, the empty text, that hash differently |
| `GroupTree.FindChild` | common/eventconsumption/eventgrouping.hpp:131-137 | finds the child whose hash and values are the event's, if there is one, and reports none only if there is none |
| `GroupTree.GroupNode.constructor` | common/eventconsumption/eventgrouping.hpp:105-112 | a new node is the empty tree |
| `GroupTree.GroupNode.Count` | common/eventconsumption/eventgrouping.hpp:117-125 | the event is counted in the subtotal, and in the leaf summary at the bottom only |
| `GroupTree.GroupNode.Emplace` | common/eventconsumption/eventgrouping.hpp:144 | the child is added under its hash and values, and nothing else changes |
| `GroupTree.GroupNode.AddChild` | common/eventconsumption/eventgrouping.hpp:139-145 | a new empty child with the event's values is added, or none when a value throws |
| `GroupTree.GroupNode.ChildFor` | common/eventconsumption/eventgrouping.hpp:130-145 | finds or adds the child for the event; the rest of the tree is unchanged |
| `GroupTree.GroupNode.ProcessChild` | common/eventconsumption/eventgrouping.hpp:147 | only the chosen child's tree changes, and all footprints stay apart |
| `GroupTree.GroupNode.Descend` | common/eventconsumption/eventgrouping.hpp:130-147 | the step below a node refines the update of the tree seen as maps |
| `GroupTree.GroupNode.Process` | common/eventconsumption/eventgrouping.hpp:113-148 | processing an event in the heap tree is the map update for it, and it throws exactly when a value above the event's depth does |
| `GroupTree.ChildFirst` | common/eventconsumption/eventgrouping.hpp:139-147 | adding an empty child first and processing it afterwards amounts to one update |
| `GroupBy.Collect` | common/eventconsumption/eventindexsummarize.cpp:1258-1320 | a whole run on a fresh root leaves the tree that the run defines |
| `GroupBy.ProcessedAt` | common/eventconsumption/eventgrouping.hpp:113-148 | one event changes exactly the nodes on the path of its own groups, adding it once to each subtotal and to the leaf summary at the bottom |
| `GroupBy.ProcessedKids` | common/eventconsumption/eventgrouping.hpp:130-147 | below any node one event updates or adds exactly one child, or none |
| `GroupBy.TreeIsGroupBy` | common/eventconsumption/eventgrouping.hpp:113-148 | after any run the node at a path exists exactly when an event belongs to it, and its subtotal is those events, in order |
| `GroupBy.DepthIsHierarchy` | common/eventconsumption/eventgrouping.hpp:119-128 | no run makes a group deeper than the hierarchy |
| `GroupBy.EventsAreConserved` | common/eventconsumption/eventgrouping.hpp:113-148 | at every node the subtotal is, as a multiset, the children's events, the leaf summary's, and those whose depth stops there |
| `GroupBy.RootCountsEverything` | common/eventconsumption/eventgrouping.hpp:117 | the root's subtotal is the whole input, in order |
| `GroupBy.ChildrenAreReached` | common/eventconsumption/eventgrouping.hpp:130-147 | a group has a child with a key exactly when some event of the run was added under it |
| `GroupBy.SplitMeans` | common/eventconsumption/eventgrouping.hpp:131-137 | two siblings share their values exactly when two events of the run with equal values hash differently |
| `GroupBy.SiblingsDiffer` | common/eventconsumption/eventgrouping.hpp:131-145 | siblings have different value tuples when no event reaching them has a nameless plane at a level grouped by plane |
| `GroupBy.SplitByUnnamedPlane` | common/eventconsumption/eventgrouping.hpp:131-145 | for any hash and hierarchy, siblings share their values if and only if two events with those values reached the level, one plane only was nameless, and the level's hash of those values shows it |
| `GroupBy.OddLevelsSplit` | common/eventconsumption/eventgrouping.hpp:131-145 | which it always does, with a hash such as FNV-1a, at a level that has plane an odd number of times |
| `GroupBy.GroupsAreByValue` | common/eventconsumption/eventgrouping.hpp:113-148 | with named planes the subtotal of a group is exactly the events whose values start with the group's values and whose depth reaches it |
| `GroupOrder.Before` | common/eventconsumption/eventgrouping.hpp:173-206 | the comparison loop decides the order of the first position where the tuples differ |
| `GroupOrder.DecimalParses` | common/eventconsumption/eventgrouping.hpp:190-195 | strtoull reads the decimal text of a 64-bit number back, to its end |
| `GroupOrder.ValuesAreHoldable` | common/eventconsumption/eventgrouping.cpp:208-277 | every value an event can give is missing, a canonical decimal, a node kind name, or text where texts are compared |
| `GroupOrder.TuplesAreHoldable` | common/eventconsumption/eventgrouping.cpp:208-277 | so is every position of a tuple |
| `GroupOrder.ValueOrder` | common/eventconsumption/eventgrouping.hpp:180-202 | on such values the mixed comparison is asymmetric and tells different values apart |
| `GroupOrder.ValueTransitive` | common/eventconsumption/eventgrouping.hpp:180-202 | and transitive, although numbers and texts are mixed |
| `GroupOrder.TupleOrder` | common/eventconsumption/eventgrouping.hpp:173-206 | tuples: asymmetric, and two tuples are unordered only when equal |
| `GroupOrder.TupleTransitive` | common/eventconsumption/eventgrouping.hpp:173-206 | tuples: transitive, hence a strict total order as std::sort demands |
| `GroupOrder.CycleOnOtherText` | common/eventconsumption/eventgrouping.hpp:185-202 | on texts no event can produce, the comparison has a cycle |
| `GroupRender.BuiltIsSortable` | common/eventconsumption/eventgrouping.hpp:150-224 | every tree a run builds can be rendered: values are comparable at each level and no node lies below the hierarchy |
| `GroupRender.SortEntries` | common/eventconsumption/eventgrouping.hpp:168-206 | the result has exactly the given children, in the order of the comparison |
| `GroupRender.FormatValues` | common/eventconsumption/eventgrouping.hpp:155-164 | each value of a group is shown as formatValue makes it, with the attribute it belongs to |
| `GroupRender.Wrap` | common/eventconsumption/eventgrouping.hpp:165-223 | the calls around the children: begin, leaf summary, subtotal if there are children (or an empty root), end |
| `GroupRender.RenderChildren` | common/eventconsumption/eventgrouping.hpp:208-209 | each sorted child is rendered once, in turn |
| `GroupRender.Render` | common/eventconsumption/eventgrouping.hpp:150-224 | the calls made are those of some sorted order of the children, at every level |
| `GroupRender.OneOrdering` | common/eventconsumption/eventgrouping.hpp:173-206 | without split groups there is only one sorted order of the children |
| `GroupRender.OneRendering` | common/eventconsumption/eventgrouping.hpp:150-224 | so the report is determined by the tree, and not by the order of the multimap |
| `GroupRender.GroupsShownAre` | common/eventconsumption/eventgrouping.hpp:150-224 | the groups counted under a path of shown values are those of the tree whose values, formatted, are that path |
| `GroupRender.ReportIsBalanced` | common/eventconsumption/eventgrouping.hpp:150-224 | for every tree that can be rendered, with split groups or not: begins and ends are properly nested, and a path of shown values is begun as often as the tree has groups that are shown so |
| `GroupRender.NamedPlanesUnsplit` | common/eventconsumption/eventgrouping.hpp:113-148 | a run whose planes have names splits no group anywhere |
| `GroupRender.Report` | common/eventconsumption/eventindexsummarize.cpp:1258-1320 | the report of any run renders the tree that the run defines, and is properly nested |
| `GroupValues.BucketIsMultiple` | common/eventconsumption/eventgrouping.cpp:252-257 | the bucket of a number is the multiple of the size with bucket <= number < bucket + size |
| `GroupValues.NoLeadingZero` | common/eventconsumption/eventgrouping.cpp:252-265 | numbers are shown without leading zeros |
| `GroupValues.NumbersAreShown` | common/eventconsumption/eventgrouping.cpp:208-277 | a numeric attribute's value is decimal text that spells the event's number or, in buckets, its bucket |
| `GroupValues.OneBucket` | common/eventconsumption/eventgrouping.cpp:252-257 | two events have one value if and only if one bucket holds both numbers |
| `GroupValues.FlagsAreBits` | common/eventconsumption/eventgrouping.cpp:213-220 | the flags shown are the bits of SearchFlags, from the lowest on |
| `GroupValues.KindsAreShown` | common/eventconsumption/eventgrouping.cpp:234-244 | node kinds 0, 1 and 2 are branch, leaf and blob, any other throws, and an index payload is a leaf's |
| `GroupValues.BaseNameIsLast` | common/eventconsumption/eventgrouping.cpp:210-212 | an input file's name is what follows the last separator of its path |
| `GroupValues.UnknownFilesDiffer` | common/eventconsumption/eventmetaparser.cpp:148-161 | files without metadata are told apart by their numbers |
| `GroupValues.TextLessMeans` | common/eventconsumption/eventgrouping.hpp:198-202 | one text is before another exactly if, where they first differ, it ends or has the smaller character |
| `GroupValues.NumbersInOrder` | common/eventconsumption/eventgrouping.hpp:180-202 | values of every one, four and eight byte attribute are ordered as the numbers they spell |
| `GroupValues.NothingComesFirst` | common/eventconsumption/eventgrouping.hpp:180-202 | an event without the attribute comes before all that have it |
| `GroupValues.TextsInOrder` | common/eventconsumption/eventgrouping.hpp:180-202 | values of text, flag, timestamp and pseudo attributes are ordered as texts |
| `GroupValues.BelongsByValue` | common/eventconsumption/eventgrouping.hpp:113-148 | an event belongs to groups of some values if and only if it is grouped that deep and has those values at every level |
| `GroupValues.GroupsShowNumbers` | common/eventconsumption/eventgrouping.hpp:113-148 | what a group shows for a numeric attribute is the number, or the bucket, of each of its events |
| `GroupReport.CallsAreAbout` | common/eventconsumption/eventgrouping.hpp:150-224 | every call of a rendering is about one group of the tree, at its level, with its values as shown and its events |
| `GroupReport.SubtotalsShowGroups` | common/eventconsumption/eventgrouping.hpp:150-224 | a subtotal of a report shows exactly the events of one group of the run, in order, or all of them under TOTAL |
| `GroupReport.GroupsAreReported` | common/eventconsumption/eventgrouping.hpp:150-224 | every group is begun and ended, every leaf summary is shown, and so is the subtotal of every group with subgroups |
| `DumpRun.OwnNames` | system/jlib/jevent.cpp:88-165 | the attributes of an event have different names, none of them empty, called name or starting with meta. |
| `DumpRun.RecordedDistinct` | common/eventconsumption/eventdump.hpp:82-118 | so no event is recorded with a repeated name, whatever is added to it |
| `DumpRun.OneCallMore` | common/eventconsumption/eventdump.hpp:121-148 | one call adds the event it visits, and changes the depth by what it opens or closes |
| `DumpRun.StartsAndEnds` | common/eventconsumption/eventdump.hpp:63-72 | a run of one outermost visit ends with the departure that closes it |
| `DumpJson.ParsesBack` | common/eventconsumption/eventdumpstream.cpp:230-357 | any JSON value, written as tokens (sections 4 and 5 of RFC 8259) and followed by anything, is parsed back to itself |
| `DumpJson.JsonVisitor.ConditionalDelimiter` | common/eventconsumption/eventdumpstream.cpp:336-345 | a comma exactly between elements of the innermost open container |
| `DumpJson.JsonVisitor.OpenContainer` | common/eventconsumption/eventdumpstream.cpp:319-327 | opens a container as the next element of the enclosing one, which is no longer empty |
| `DumpJson.JsonVisitor.CloseContainer` | common/eventconsumption/eventdumpstream.cpp:329-334 | ends the innermost container |
| `DumpJson.JsonVisitor.RecordAttribute` | common/eventconsumption/eventdumpstream.cpp:282-287 | adds a member to the open object |
| `DumpJson.JsonVisitor.VisitFile` | common/eventconsumption/eventdumpstream.cpp:233-242 | only the outermost visit opens the document and its header |
| `DumpJson.JsonVisitor.StartEvents` | common/eventconsumption/eventdumpstream.cpp:246-257 | the first event ends the header and starts the array |
| `DumpJson.JsonVisitor.VisitEvent` | common/eventconsumption/eventdumpstream.cpp:244-265 | appends one complete object, with everything the event records, and leaves the delimiter stack as it was |
| `DumpJson.JsonVisitor.DepartFile` | common/eventconsumption/eventdumpstream.cpp:267-279 | only the outermost departure ends the array or header and writes the footer; the delimiter stack is then empty |
| `DumpJson.Inside` | common/eventconsumption/eventdumpstream.cpp:230-357 | any call inside the outermost visit keeps the invariant of a partly written document |
| `DumpJson.Finish` | common/eventconsumption/eventdumpstream.cpp:267-279 | the last call completes the document, with the delimiter stack and markup empty |
| `DumpJson.Dump` | common/eventconsumption/eventdumpstream.cpp:230-357 | for every run of one outermost visit, with any inner visits and any number of events, the tokens are those of one JSON value |
| `DumpJson.WholeIsWritten` | common/eventconsumption/eventdumpstream.cpp:230-357 | the concatenation of what the calls emit is the writing of that value |
| `DumpJson.DumpDenotesDoc` | common/eventconsumption/eventdumpstream.cpp:230-357 | parsing the tokens gives one value with nothing left over, and it stands for the header, events and footer of the run |
| `DumpXml.XmlVisitor.VisitFile` | common/eventconsumption/eventdumpstream.cpp:147-156 | only the outermost visit opens the root and the header |
| `DumpXml.XmlVisitor.VisitEvent` | common/eventconsumption/eventdumpstream.cpp:158-172 | one element per event; the first also ends the header |
| `DumpXml.XmlVisitor.DepartFile` | common/eventconsumption/eventdumpstream.cpp:174-185 | only the outermost departure writes the footer and closes the root; the indentation returns to zero |
| `DumpXml.Inside` | common/eventconsumption/eventdumpstream.cpp:144-221 | any call inside the outermost visit keeps the invariant of a partly written document |
| `DumpXml.Dump` | common/eventconsumption/eventdumpstream.cpp:144-221 | the tokens of every run of one outermost visit |
| `DumpXml.RunParses` | common/eventconsumption/eventdumpstream.cpp:144-221 | they are one well-nested element (section 3 of XML 1.0) with nothing left over |
| `DumpXml.DumpDenotesDoc` | common/eventconsumption/eventdumpstream.cpp:144-221 | it stands for the document of the run, and no start tag repeats an attribute (section 3.1 of XML 1.0) |
| `DumpTree.TreeVisitor.VisitFile` | common/eventconsumption/eventdumpptree.cpp:25-33 | the outermost visit makes a new tree with its header; an inner one leaves it alone |
| `DumpTree.TreeVisitor.VisitEvent` | common/eventconsumption/eventdumpptree.cpp:35-44 | one more section, with the attributes as the tree keeps them |
| `DumpTree.TreeVisitor.DepartFile` | common/eventconsumption/eventdumpptree.cpp:46-52 | the outermost departure adds the footer |
| `DumpTree.TreeVisitor.AddSection` | common/eventconsumption/eventdumpptree.cpp:35-39 | a new last child, and all earlier sections unchanged |
| `DumpTree.Build` | common/eventconsumption/eventdumpptree.cpp:22-69 | the tree of every run of one outermost visit |
| `DumpTree.KeptIfDistinct` | common/eventconsumption/eventdumpptree.cpp:55-58 | a node keeps all attributes it is given exactly when their names differ |
| `DumpTree.TreeDenotesDoc` | common/eventconsumption/eventdumpptree.cpp:22-69 | the tree of every run stands for the document of the run: nothing given to a node is lost |
| `DumpAgreement.DumpsAgree` | common/eventconsumption/eventdump.hpp:49-148 | for every run of one outermost visit the JSON tokens, the XML tokens and the property tree stand for the same document |
| `DumpMeaning.DocDescribes` | common/eventconsumption/eventdump.hpp:121-148 | the document of a run shows, for every event in order, its name, then all its attributes under their own names, then just the metadata asked for, each once and in its place |
| `DumpMeaning.RunIsQuoted` | common/eventconsumption/eventdump.hpp:176-195 | in JSON texts and timestamps are quoted, and numbers and flags are not |
| `DumpMeaning.DumpsDescribeTheRun` | common/eventconsumption/eventdump.hpp:78-200 | each of the three dumps, parsed, gives such a document |
| `DumpMeaning.AnyFileIsDumped` | common/eventconsumption/eventdump.hpp:63-72 | a file of any events makes such a run, whose events are those |
| `SchemaBuilder.PatchIsUpdate` | common/deftype/deftype.cpp:3830-3834 | replacing the digit in the text of one tag is printing that tag with the other flag, and no other tag changes |
| `SchemaBuilder.FrameBegun` | common/deftype/deftype.cpp:3811-3913 | how what is begun changes the expected stacks and open elements |
| `SchemaBuilder.RecordStartOpens` | common/deftype/deftype.cpp:3811-3828 | the start of a record opens three elements, wherever it stands |
| `SchemaBuilder.RecordEndEnds` | common/deftype/deftype.cpp:3836-3846 | its end ends the same three, with whatever attributes were collected, line breaks included |
| `SchemaBuilder.DatasetStartOpens` | common/deftype/deftype.cpp:3848-3889 | the start of a dataset opens as many elements as its two names call for |
| `SchemaBuilder.DatasetEndEnds` | common/deftype/deftype.cpp:3891-3913 | its end ends exactly those |
| `SchemaBuilder.SuffixCloses` | common/deftype/deftype.cpp:3612-3624 | the end of the schema balances it exactly when no named record and no dataset is open |
| `SchemaBuilder.AlreadyHadSize` | common/deftype/deftype.cpp:3576-3585 | reports whether the size was listed, and lists it once |
| `SchemaBuilder.XmlSchemaBuilder.constructor` | common/deftype/deftype.hpp:368-405 | a fresh builder has printed nothing and mirrors nothing open |
| `SchemaBuilder.KeyTellsSize` | common/deftype/deftype.cpp:3663-3675 | the key under which a decimal type is looked up tells its digits and precision; it does not hold the sign |
| `SchemaBuilder.DecimalNameInjective` | common/deftype/deftype.cpp:567-579 | decimal types of different sign, digits or precision have different names |
| `SchemaBuilder.OnlyDecimalsAreCalled` | common/deftype/deftype.cpp:3627-3721 | no other type is defined under the name of a decimal type |
| `SchemaBuilder.DefNamesDiffer` | common/deftype/deftype.cpp:3627-3721 | no two different definitions of a schema have one name |
| `SchemaBuilder.NamedIsDefined` | common/deftype/deftype.cpp:3627-3721 | once a type has been named, its name and all names it refers to are built in or the names of definitions, if and only if the decimal type in it had not been defined with the other sign |
| `SchemaBuilder.XmlSchemaBuilder.GetXmlTypeName` | common/deftype/deftype.cpp:3627-3721 | the name, and the definitions that it needs, each added once, those of set elements first; what it refers to is defined by name if and only if no decimal of that size was there with the other sign |
| `SchemaBuilder.XmlSchemaBuilder.AddField` | common/deftype/deftype.cpp:3723-3776 | prints the field or keeps the attribute back; it is optional exactly when a conditional block opened inside the innermost open named record or dataset is still open |
| `SchemaBuilder.XmlSchemaBuilder.AddSetField` | common/deftype/deftype.cpp:3778-3809 | prints the set's items, balanced, referring to the name of the element type |
| `SchemaBuilder.XmlSchemaBuilder.BeginIfBlock` | common/deftype/deftype.hpp:368-405 | one more conditional block is open, and the stacks mirror it |
| `SchemaBuilder.XmlSchemaBuilder.EndIfBlock` | common/deftype/deftype.hpp:368-405 | undoes it |
| `SchemaBuilder.XmlSchemaBuilder.BeginRecord` | common/deftype/deftype.cpp:3811-3828 | prints the start, puts the enclosing count away, and returns a position that denotes the flag of its tag; a record without a name leaves everything as it is |
| `SchemaBuilder.XmlSchemaBuilder.EndRecord` | common/deftype/deftype.cpp:3836-3846 | prints the end with the attributes collected since the begin, and restores the enclosing count |
| `SchemaBuilder.XmlSchemaBuilder.BeginDataset` | common/deftype/deftype.cpp:3848-3889 | the same for a dataset, for every combination of its two names |
| `SchemaBuilder.XmlSchemaBuilder.EndDataset` | common/deftype/deftype.cpp:3891-3913 | the same for its end |
| `SchemaBuilder.XmlSchemaBuilder.AddSingleFieldDataset` | common/deftype/deftype.cpp:3915-3939 | a whole dataset with one field, balanced |
| `SchemaBuilder.XmlSchemaBuilder.UpdateMixedRecord` | common/deftype/deftype.cpp:3830-3834 | changes one character of the text and so one tag's flag; balance and stacks are kept |
| `SchemaBuilder.XmlSchemaBuilder.GetXml` | common/deftype/deftype.cpp:3943-3975 | the schema is balanced (section 2.1 of XML 1.0) if and only if no named record and no dataset is open; the text and size lists are then cleared, type definitions are not |
| `SchemaTypes.MoreNamed` | common/deftype/deftype.cpp:3627-3721 | naming one more type keeps the definitions exactly those that the named types and the types inside them need |
| `SchemaTypes.ElementsAreReferred` | common/deftype/deftype.cpp:3696-3717 | the definitions of sets refer to the element types of the set types named, and to nothing else |
| `SchemaTypes.AllDefinedIfOneSign` | common/deftype/deftype.cpp:3663-3675 | every name of a named type is built in or defined if and only if no decimal size is named with both signs |
| `SchemaTypes.OneMoreReference` | common/deftype/deftype.cpp:3627-3721 | a reference to one more type adds the names of that type and of those inside it, and no others |
| `SchemaPicture.NextRefers` | common/deftype/deftype.cpp:3723-3939 | each call refers to the type that it asks a name for, and to no other; patches and starts and ends refer to none |
| `SchemaPicture.RunIsTyped` | common/deftype/deftype.cpp:3723-3939 | after any well-nested run the references in what is printed, kept back and defined are the names of the types that the run names, with the types inside them |
| `SchemaPicture.AllDefinedIff` | common/deftype/deftype.cpp:3663-3675 | all of them are built in or defined if and only if the run names no decimal size with both signs, set elements included |
| `SchemaPicture.SchemaIsDefined` | common/deftype/deftype.cpp:3612-3624 | the same for the type attributes of the finished schema; records left open can only hide attributes |
| `SchemaRun.OneTag` | common/deftype/deftype.cpp:3587-3595 | a position denotes the flag of one tag only |
| `SchemaRun.PatchedStillMarked` | common/deftype/deftype.cpp:3830-3834 | a patch leaves what every other position denotes unchanged |
| `SchemaRun.Begin` | common/deftype/deftype.cpp:3811-3889 | a begin call prints its start and adds a position; all earlier positions keep denoting what they did |
| `SchemaRun.Update` | common/deftype/deftype.cpp:3830-3834 | an update through any earlier position changes the flag of that call's tag, however much was printed since |
| `SchemaRun.Field` | common/deftype/deftype.cpp:3723-3809 | a field prints what the run calls for, and the names it refers to are defined if and only if its decimal size had not been defined with the other sign |
| `SchemaRun.Single` | common/deftype/deftype.cpp:3915-3939 | a dataset with one field prints what the run calls for |
| `SchemaRun.End` | common/deftype/deftype.cpp:3836-3913 | an end call prints what was kept back for what it ends |
| `SchemaRun.Play` | common/deftype/deftype.cpp:3587-3975 | after any well-nested run on a fresh builder the stacks mirror what is open, the text is what the run calls for, every position is still right, and every type referred to is defined if and only if no decimal size is named with both signs |
| `SchemaRun.Schema` | common/deftype/deftype.cpp:3943-3975 | the schema of a run, whole; balanced if and only if the run leaves no named record and no dataset open; no name is defined twice; every type attribute is built in or the name of a definition in it if no decimal size is named with both signs, and only if so once nothing is left open |
| `SchemaRun.SchemaOfBothSigns` | common/deftype/deftype.cpp:3663-3675 | a run that names one size with both signs: the schema refers to the unsigned type and defines only the signed one |
| `SchemaMeaning.FieldIsDeclared` | common/deftype/deftype.cpp:3723-3759 | a field is declared under its name and type, as an attribute or an element, optional exactly if asked for, and marked if keyed |
| `SchemaMeaning.SetIsDeclared` | common/deftype/deftype.cpp:3778-3809 | a set field's items have its element type and any number of occurrences, in an optional element of the set's name |
| `SchemaMeaning.RecordIsDeclared` | common/deftype/deftype.cpp:3811-3828 | a record is one element with the mixed content it was given |
| `SchemaMeaning.NamedRowsAreDeclared` | common/deftype/deftype.cpp:3848-3889 | a dataset of one name is an element with any number of occurrences |
| `SchemaMeaning.RowsAreDeclared` | common/deftype/deftype.cpp:3848-3889 | a dataset whose rows have a name is a sequence of any number of them, in one element if it has a name itself |
| `SchemaMeaning.SingleIsDeclared` | common/deftype/deftype.cpp:3915-3940 | a dataset of one field is a sequence of any number of them |
| `SchemaMeaning.RootIsDeclared` | common/deftype/deftype.cpp:3597-3609 | the document is one Dataset of any number of rows, with the mixed content of the first record |
| `SchemaMeaning.BuiltInsAreNamed` | common/deftype/deftype.cpp:3627-3698 | the XML Schema types of booleans, reals, signed and unsigned integers and texts of unknown length |
| `SchemaMeaning.LengthsAreDefined` | common/deftype/deftype.cpp:3646-3697 | data types restrict hexBinary to their length, text types a string to at most theirs |
| `SchemaMeaning.DigitsAreDefined` | common/deftype/deftype.cpp:3663-3675 | decimal types restrict decimal to their digits and decimal places |
| `SchemaMeaning.UnknownDigitsAreNegative` | common/deftype/deftype.cpp:3663-3675 | a decimal type of unknown size is given -15 digits |
| `SchemaMeaning.SetTypeIsDefined` | common/deftype/deftype.cpp:3698-3718 | a set type has any number of items of its element type |
| `SchemaMeaning.OptionalMeans` | common/deftype/deftype.cpp:3736-3748 | fields are optional exactly while a conditional block is open inside the innermost named record or dataset |
| `SchemaMeaning.TagsAreMarkup` | common/deftype/deftype.cpp:3587-3609 | how tags and attributes are printed |
| `FilterTerms.MatchText` | common/eventconsumption/eventfilter.cpp:61-113 | no deny pattern applies, and an allow pattern does if there are any; without patterns nothing passes |
| `FilterTerms.StringTerm.AcceptToken` | common/eventconsumption/eventfilter.cpp:115-133 | adds a pattern once, or refuses a comparison that texts do not have; what is remembered stays right if and only if the pattern changes no remembered verdict |
| `FilterTerms.StringTerm.Matches` | common/eventconsumption/eventfilter.cpp:231-241 | answers the remembered verdict, or that of the patterns, which is then remembered; a memory that agrees with the patterns keeps agreeing |
| `FilterTerms.LatePatternIsMissed` | common/eventconsumption/eventfilter.cpp:217-241 | a term that is asked, given a pattern and asked again still refuses a value that its patterns accept |
| `FilterTerms.AcceptRange` | common/eventconsumption/eventfilter.cpp:392-415 | admits a range once, and single values only for equality |
| `FilterTerms.MatchNumber` | common/eventconsumption/eventfilter.cpp:299-357 | the allow and deny meaning of number ranges |
| `FilterTerms.AnnouncedMore` | common/eventconsumption/eventfilter.cpp:446-461 | a visit announces its own file and leaves all others as they were |
| `FilterTerms.FileIdTerm.Observe` | common/eventconsumption/eventfilter.cpp:446-461 | the set kept is exactly the files some visit so far has announced under a matching path, plane or logical name; a missing number reads 0 and a missing path is empty |
| `FilterTerms.FileIdTerm.Matches` | common/eventconsumption/eventfilter.cpp:463-469 | a file passes by its number, or because a visit up to now announced it under a matching text |
| `FilterTerms.TraceIdTerm.Matches` | common/eventconsumption/eventfilter.cpp:522-555 | answers from the cache or from the patterns, forgets a stopped query's match and never stores it; a cache that agrees with the patterns keeps agreeing |
| `FilterTerms.TraceIdTerm.Recall` | common/eventconsumption/eventfilter.cpp:522-555 | an answer was the patterns' at some visit to that trace, maybe this one |
| `FilterTerms.AskAll` | common/eventconsumption/eventfilter.cpp:522-555 | over any visits, with services that change, the cached answers are those of the patterns if and only if no trace's verdict changes between the visit that stored it and one that reads it |
| `FilterTerms.FixedServicesAreFine` | common/eventconsumption/eventfilter.cpp:540-554 | which is so when the services are the same at every visit |
| `FilterTerms.LateServiceIsMissed` | common/eventconsumption/eventfilter.cpp:540-554 | without the pre-scan, a term that is asked before and after the service of a trace becomes known still refuses a trace that its patterns accept by then |
| `EventFilter.Filter.constructor` | common/eventconsumption/eventfilter.cpp:626-632 | a configured filter has a term for each part of its configuration and remembers nothing |
| `EventFilter.Filter.MatchPath` | common/eventconsumption/eventfilter.cpp:419-440 | a path passes by itself, or by the logical name of the file the event announces |
| `EventFilter.Filter.MatchNumberAttr` | common/eventconsumption/eventfilter.cpp:652-657 | a number passes its ranges, a file number also its history |
| `EventFilter.Filter.MatchTextAttr` | common/eventconsumption/eventfilter.cpp:652-657 | a text passes the term of its own attribute; a trace also by what was said of it at an earlier visit |
| `EventFilter.Filter.MatchAttributes` | common/eventconsumption/eventfilter.cpp:652-657 | true exactly when every assigned attribute with a term passes it, unless the verdict on the event's trace has changed |
| `EventFilter.Filter.MatchFlags` | common/eventconsumption/eventfilter.cpp:659-668 | true exactly when every flag with a term has an accepted setting |
| `EventFilter.Filter.Matches` | common/eventconsumption/eventfilter.cpp:641-676 | the conjunction of input file, event type, attributes, flags and implied node kind, unless the verdict on the trace has changed; all that is remembered comes from visits |
| `EventFilter.Filter.VisitEvent` | common/eventconsumption/eventfilter.cpp:630-680 | the event is observed first, then forwarded exactly if it passes, unless the verdict on its trace has changed |
| `EventFilter.Run` | common/eventconsumption/eventfilter.cpp:630-680 | over any run, whatever services become known in it: every visit whose trace has the verdict it had before is decided rightly, and if that is so of all, exactly what passes is forwarded, in order, with the history up to and including each |
| `EventFilter.SteadyIf` | common/eventconsumption/eventfilter.cpp:522-555 | it is so of all in every run of a filter without service patterns, and in every run in which each trace has the same service at all its visits |
| `EventFilter.SteadyChosenArePassing` | common/eventconsumption/eventfilter.cpp:630-680 | decisions that are right for every visit choose exactly what passes |
| `Traversal.PreScan` | common/eventconsumption/eventoperation.cpp:136-169 | collecting from a whole recording gives what the recording defines, and fails exactly when that does |
| `Traversal.PassOn` | common/eventconsumption/eventiterator.cpp:448-451 | after a pre-scan an event only gets its file's number; without one it is collected first |
| `Traversal.ScannedVisits` | common/eventconsumption/eventoperation.cpp:171-206 | after a pre-scan every event is visited with the metadata of the whole recording |
| `Traversal.TraversalIsSteady` | common/eventconsumption/eventoperation.cpp:171-206 | a filter that has had the pre-scan it asks for never sees the verdict on a trace change |
| `Traversal.VisitSeen` | common/eventconsumption/eventoperation.cpp:171-206 | one event, collected or renumbered, is visited by the filter |
| `Traversal.Traverse` | common/eventconsumption/eventoperation.cpp:171-206 | a whole traversal forwards exactly what passes, in order, for every filter and recording, and fails exactly when the metadata cannot be collected |
| `RecordedGroups.VisitsAreKnown` | common/eventconsumption/eventoperation.cpp:171-206 | whatever an event is visited with is what is known after some part of the recording |
| `RecordedGroups.RecordedPlanesAreNamed` | common/eventconsumption/eventmetaparser.cpp:310-379 | if the recording names all its planes, no event that comes with its metadata has a nameless one |
| `RecordedGroups.GroupsOfNamedPlanes` | common/eventconsumption/eventgrouping.hpp:113-148 | then, for any hash and hierarchy, no siblings share their values, at any level, and each group's subtotal is exactly the events with its values |
| `FilterMeaning.NumbersCompare` | common/eventconsumption/eventfilter.cpp:299-357 | a number passes one comparison with n exactly if it is less, equal or greater |
| `FilterMeaning.OtherComparisons` | common/eventconsumption/eventfilter.cpp:299-357 | the or-equal forms and the denials are made of these |
| `FilterMeaning.InRange` | common/eventconsumption/eventfilter.cpp:299-357 | a range holds what lies between its ends, and its denial the rest |
| `FilterMeaning.BesideRange` | common/eventconsumption/eventfilter.cpp:299-357 | less is less than all of a range, greater is greater than all of it |
| `FilterMeaning.TextsCompare` | common/eventconsumption/eventfilter.cpp:61-113 | the same for texts, in the order of the comparison without regard to case |
| `FilterMeaning.WildcardsMatch` | common/eventconsumption/eventfilter.cpp:61-113 | a pattern without a comparison is a wildcard |
| `FilterMeaning.ConditionsCombine` | common/eventconsumption/eventfilter.cpp:299-357 | a number passes several conditions if and only if it meets every denial and, if there are others, one of those; without conditions nothing passes |
| `FilterMeaning.PatternsCombine` | common/eventconsumption/eventfilter.cpp:61-113 | the same for texts |
| `IntegerFolding.WrapUnique` | common/deftype/defvalue.cpp:1873-1886 | the wrapped number is the only one of its type that differs by a multiple of 2^(8 size) |
| `IntegerFolding.WrapIsIdentity` | common/deftype/defvalue.cpp:1873-1886 | exactly the numbers of the type are left alone |
| `IntegerFolding.TruncationWraps` | common/deftype/defvalue.cpp:1873-1886 | truncateInt, by shifts or by mask, yields that number |
| `IntegerFolding.RangeIsFixedPoint` | common/deftype/defvalue.cpp:1841-1848 | isInRange holds exactly for the numbers of the type, and exactly for those that truncation leaves alone |
| `IntegerFolding.MinSizeIsLeast` | common/deftype/defvalue.cpp:1850-1865 | getMinSize is the least of 1, 2, 4 and 8 bytes that hold the number |
| `NumericTypes.IntegerPromotion` | common/deftype/deftype.cpp:2418-2471 | independent of operand order, and it holds every value of both operands unless a signed type meets an 8-byte unsigned one: if and only if |
| `NumericTypes.PromotedIs` | common/deftype/deftype.cpp:2418-2471 | with equal signs it is the larger operand; with mixed signs the signed one if it is larger, else a signed type of the least of 1, 2, 4 and 8 bytes above the unsigned one's, or 8 |
| `NumericTypes.OnePromoted` | common/deftype/deftype.cpp:2418-2471 | which determines it |
| `NumericTypes.PromotedIsLeast` | common/deftype/deftype.cpp:2418-2471 | it is the smallest integer type that holds both if and only if no unsigned type of 2, 4, 5 or 6 bytes meets a signed one that is not larger |
| `NumericTypes.PromotedDecimalIs` | common/deftype/deftype.cpp:2383-2405 | the promoted decimal has the larger number of leading digits, the larger number of decimal places, and a sign if one operand has it |
| `NumericTypes.PromotedDecimalIsLeast` | common/deftype/deftype.cpp:2383-2405 | no decimal type that holds both operands lacks a number of it |
| `NumericTypes.PromotedTypeIs` | common/deftype/deftype.cpp:2499-2551 | the promoted type of booleans, integers and decimals together |
| `NumericTypes.BooleanNeedsOneDigit` | common/deftype/deftype.cpp:2383-2405 | a truth value counts as one leading digit without a sign, which is just what it needs |
| `NumericTypes.SumTypeIs` | common/deftype/deftype.cpp:2560-2566 | the type of a sum has one leading digit more, up to 32 |
| `NumericTypes.IntFitsDigits` | common/deftype/deftype.cpp:2220-2258 | every number of an integer type has at most getDigits digits |
| `NumericTypes.DecimalPromotion` | common/deftype/deftype.cpp:2383-2405 | the promoted decimal holds every value of both operands, whatever their order |
| `NumericTypes.PromotionHoldsBoth` | common/deftype/deftype.cpp:2499-2551 | the same for booleans, integers and decimals together, with the one mixed case that fails: if and only if |
| `NumericTypes.SumHasRoom` | common/deftype/deftype.cpp:2560-2566 | with a leading digit to spare the add type holds every exact sum |
| `NumericTypes.AddFolds` | common/deftype/defvalue.cpp:2527-2598 | the folded sum is in the promoted type, told without naming its function, congruent to the exact sum, and equal to it whenever that fits |
| `NumericTypes.SubtractFolds` | common/deftype/defvalue.cpp:2527-2598 | the same for differences |
| `NumericTypes.NegateFolds` | common/deftype/defvalue.cpp:2782-2792 | the same for the opposite |
| `NumericTypes.IntToIntIsExact` | common/deftype/deftype.cpp:2630-2641 | between integers preservesValue holds if and only if every value survives |
| `NumericTypes.IntToDecimal` | common/deftype/deftype.cpp:2642-2650 | from integer to decimal, every value survives if and only if preservesValue says so or one digit fewer than getDigits of a signed 3, 5 or 8 byte integer is enough |
| `NumericTypes.DecimalToDecimalIsExact` | common/deftype/deftype.cpp:2660-2668 | between decimals every value survives if and only if preservesValue holds or the first has no digits |
| `NumericTypes.DecimalToInt` | common/deftype/deftype.cpp:2671-2674 | from decimal to integer, every value survives if and only if the decimal has no digits, or preservesValue says so and it is not a signed 3, 5 or 8 byte integer with exactly one digit to spare, where preservesValue is wrong |
| `NumericTypes.CastLosesIsNotInjective` | common/deftype/deftype.cpp:2726-2733 | castLosesInformation between integers holds if and only if the truncating cast maps two values to one |
| `Modifiers.QueryUnqualifiedType` | common/deftype/deftype.cpp:3208-3219 | the loop ends at the unmodified type inside |
| `Modifiers.HasModifier` | common/deftype/deftype.cpp:3256-3267 | true exactly when the chain has the modifier, and for every type when asked for none |
| `Modifiers.WhatCanBeReplaced` | common/deftype/deftype.cpp:3300-3343 | which types can be made again with another child, and what they keep |
| `Modifiers.CloneConcatenates` | common/deftype/deftype.cpp:3290-3297 | the donor's modifiers go around the source's, whose own type stays |
| `Modifiers.CloneRestores` | common/deftype/deftype.cpp:3290-3297 | a type is its unmodified type with its own modifiers cloned back |
| `Modifiers.RemoveTakesOutermost` | common/deftype/deftype.cpp:3240-3254 | only the outermost occurrence goes, and the result is the same type exactly when there is none |
| `Modifiers.CloneThenRemove` | common/deftype/deftype.cpp:3240-3297 | removing a modifier the donor has commutes with cloning |
| `Modifiers.FullyUnqualifiedStrips` | common/deftype/deftype.cpp:3221-3238 | removes the modifiers of every level, and throws exactly when one lies below a type that replaceChildType cannot make again |
| `Modifiers.FullyUnqualifiedIsFinal` | common/deftype/deftype.cpp:3221-3238 | the result has no modifier at any level, and applying it again changes nothing |
| `TypeCodec.TypeReadsBack` | common/deftype/deftype.cpp:3379-3566 | a type that can be written is read back, whatever follows, if and only if it is of a persistable class all the way down |
| `TypeCodec.TypeOneByteShort` | common/deftype/deftype.cpp:3379-3566 | any other type is misread, except for a packed signed byte, which leaves its last byte unread |
| `TypeCodec.PackedIntMisread` | common/deftype/deftype.ipp:581 | a packed integer writes its base type's code where the reader expects a size, so one signed byte comes back |
| `TypeCodec.UnreadCode` | common/deftype/deftype.cpp:3379-3566 | row, keyed integer, file position, transform, sort list and dictionary types are written but cannot be read |
| `TypeCodec.NeverRead` | common/deftype/deftype.cpp:3379-3566 | no bytes are read as a modified, dictionary or keyed blob type |
| `TypeCodec.BitfieldBack` | common/deftype/deftype.ipp:406 | a bit field comes back with the promoted size of its bits, whatever its store size was |
| `TypeCodec.TextTypeBack` | common/deftype/deftype.cpp:3379-3566 | string types keep length, character set and collation |
| `TypeCodec.TextBack` | system/jlib/jbuff.cpp:535-556 | a text without a NUL is read back and nothing after it is touched |
| `TypeCodec.U32Back` | system/jlib/jbuff.cpp:743-768 | a 32-bit number is read back from its four bytes |
| `RecordMeta.ElementBack` | common/deftype/deffield.cpp:132-228 | a tree of elements of any depth is read back, with exactly its own bytes taken, if and only if every field has a name and a type and every type is persistable |
| `RecordMeta.MetaBack` | common/deftype/deffield.cpp:173-236 | the same for the whole record meta data |
| `RecordMeta.PersistableBack` | common/deftype/deffield.cpp:132-228 | the induction for trees that survive |
| `RecordMeta.ElementIsLost` | common/deftype/deffield.cpp:132-228 | for trees that do not, no misreading inside is ever made up for later |
| `RecordMeta.ShiftedElement` | common/deftype/deffield.cpp:191-228 | an element is never read from its own bytes with a 1 in front, so a byte left behind is always noticed |
| `RecordMeta.ValueOneByteShort` | common/deftype/defvalue.cpp:3390-3403 | a constant of a type that does not survive is misread, or leaves that byte |
| `RecordMeta.NamelessFieldIsChanged` | common/deftype/deffield.cpp:157-168 | a field without a name comes back with an empty one, so its tree does not survive |
| `MetaBuffer.TypeReadsSuffix` | common/deftype/deftype.cpp:3379-3566 | reading a type from any bytes takes them from the front and leaves the others alone |
| `MetaBuffer.MemoryBuffer.ReadU32` | system/jlib/jbuff.cpp:743-768 | moves the cursor past the number it reads |
| `MetaBuffer.MemoryBuffer.ReadAtom` | system/jlib/jutil.cpp:2008-2022 | reads a name and moves the cursor past it, or fails when the bytes run out |
| `MetaBuffer.ReadType` | common/deftype/deftype.cpp:3379-3566 | reads a type at the cursor |
| `MetaBuffer.ReadValue` | common/deftype/defvalue.cpp:3398-3403 | reads a constant: its type, and as many bytes as that type has |
| `RecordElements.DefRecordElement.AppendChild` | common/deftype/deffield.cpp:58-63 | adds a child to an open element and refuses a closed one; no finished tree anywhere changes what it stands for |
| `RecordElements.DefRecordElement.Close` | common/deftype/deffield.cpp:65-70 | closes once; a second close is refused, and finished trees are unaffected |
| `RecordElements.ShowsOne` | common/deftype/deffield.ipp:23-68 | an element stands for one tree only |
| `RecordElements.DefRecordBuilder.Close` | common/deftype/deffield.cpp:91-94 | gives the closed element away, after which the builder has none |
| `RecordElements.AddChildOwn` | common/deftype/deffield.cpp:85-89 | the builder's element stands for one more child, last |
| `RecordElements.CreateField` | common/deftype/deffield.cpp:104-110 | a finished field element over its record, if any |
| `RecordElements.CreateIfBlock` | common/deftype/deffield.cpp:117-123 | a finished conditional block over its field and record |
| `RecordElements.SerializeElement` | common/deftype/deffield.cpp:132-171 | appends the byte form of the tree that the objects stand for, and fails exactly where a type cannot be written |
| `RecordElements.SerializeRecordMeta` | common/deftype/deffield.cpp:173-177 | the same for the whole meta data, uncompressed |
| `RecordElements.DeserializeChildren` | common/deftype/deffield.cpp:200-209 | the loop adds exactly the elements that the bytes hold, in order |
| `RecordElements.DeserializeElement` | common/deftype/deffield.cpp:191-228 | for any bytes the call ends, and makes new objects, all closed, that stand for the tree the bytes hold, with the cursor after it; or it fails |
| `RecordElements.DeserializeRecordMeta` | common/deftype/deffield.cpp:230-236 | the same for the whole meta data |
| `CodecForms.NumberForm` | system/jlib/jbuff.cpp:603-606 | a number is four bytes, the lowest first |
| `CodecForms.NumbersThatAreMade` | common/deftype/deftype.cpp:1622-1700 | the integers, reals, bit fields and decimals that can be made |
| `CodecForms.Unknowns` | common/deftype/deftype.cpp:1435-1460 | the lengths that are unknown, and what an unknown name of a character set or collation leaves |
| `CodecForms.TextsThatAreMade` | common/deftype/deftype.cpp:1435-1460 | the texts that can be made |
| `CodecForms.OthersThatAreMade` | common/deftype/deftype.cpp:1774-1900 | what can be made of other types |
| `CodecForms.NumericForms` | common/deftype/deftype.ipp:304 | class number, size and sign; class number, precision, digits and sign |
| `CodecForms.TextForm` | common/deftype/deftype.ipp:117-135 | class number, length, then the collation's and the character set's names, each marked and ended by a zero |
| `CodecForms.BasedForms` | common/deftype/deftype.ipp:581 | class number, an array's length, and the other type or 27 |
| `CodecForms.SkippedForms` | common/deftype/deftype.cpp:1290-1345 | what tables, modified types and keyed blobs do not write |
| `CodecForms.NameForm` | system/jlib/jutil.cpp:2008-2013 | length and characters |
| `CodecForms.RecordForm` | common/deftype/deffield.cpp:132-148 | 1, size, number of children, children |
| `CodecForms.IfBlockForm` | common/deftype/deffield.cpp:149-156 | 2, value, field, block |
| `CodecForms.FieldForm` | common/deftype/deffield.cpp:157-167 | 3, name, type, record or 0, size |
| `CodecForms.MetaForm` | common/deftype/deffield.cpp:173-177 | the record or 0, and the number of keyed fields |
| `ResourceLocator.RangeIsValid` | common/dllserver/thorplugin.cpp:188-191 | true exactly when the mathematical end of the range lies in the buffer, without computing it |
| `ResourceLocator.CalculateArraySize` | common/dllserver/thorplugin.cpp:202-208 | gives the product exactly when it is a 64-bit number |
| `ResourceLocator.SectionInImage` | common/dllserver/thorplugin.cpp:216-241 | once the table is valid every section header lies in the image |
| `ResourceLocator.NameMatches` | common/dllserver/thorplugin.cpp:240-242 | the terminated text at a position of the name section is the given name |
| `ResourceLocator.GetElfResource` | common/dllserver/thorplugin.cpp:216-284 | for both classes: the first section in table order that has the name and a range in the image of at most UINT_MAX bytes (System V gABI chapter 4, Sections), or none exactly when there is none; all arithmetic stays in 64 bits |
| `ResourceLocator.SectionsInImage` | common/dllserver/thorplugin.cpp:294-325 | every section of a well-formed Mach-O command lies between the header and the end of the commands |
| `ResourceLocator.SearchSegment` | common/dllserver/thorplugin.cpp:303-323 | the first wanted section of a segment |
| `ResourceLocator.SearchCommand` | common/dllserver/thorplugin.cpp:294-325 | one command ends the search or moves the offset strictly forward, never past the end of the commands |
| `ResourceLocator.GetMachResource` | common/dllserver/thorplugin.cpp:286-327 | the first wanted section among the well-formed commands |
| `ResourceLocator.GetResource` | common/dllserver/thorplugin.cpp:329-346 | the format is chosen by the first bytes and the result is that format's; a resource always lies in the file |
| `ImageLayout.NumbersAreRead` | common/dllserver/thorplugin.cpp:193-200 | the numbers read are those that the bytes spell, the lowest first |
| `ImageLayout.HeaderIsRead` | common/dllserver/thorplugin.cpp:75-91 | of an ELF header, written field by field in the order of its structure, the table's offset, entry size, count and name index are read as written, for both classes |
| `ImageLayout.SectionIsRead` | common/dllserver/thorplugin.cpp:93-105 | so are the name, offset and size of a section header |
| `ImageLayout.TableIsAnnounced` | common/dllserver/thorplugin.cpp:216-227 | the header is accepted if and only if its identification, entry size, name index and table fit |
| `ImageLayout.NoTableNoResource` | common/dllserver/thorplugin.cpp:216-227 | otherwise there is no resource |
| `ImageLayout.ElfResource` | common/dllserver/thorplugin.cpp:216-284 | of an image that holds such a header and sections, the resource is the first section that has the name and lies in the file, at its offset and of its size |
| `ImageLayout.MachHeaderIsRead` | common/dllserver/thorplugin.cpp:139-149 | the Mach-O header is read as written |
| `ImageLayout.SegmentIsRead` | common/dllserver/thorplugin.cpp:157-170 | so is a segment |
| `ImageLayout.MachSectionIsRead` | common/dllserver/thorplugin.cpp:172-186 | and a section, whose names fill 16 bytes or end in a zero |
| `ImageLayout.CommandsAreListed` | common/dllserver/thorplugin.cpp:294-325 | the sections found are those of the commands, in order |
| `ImageLayout.MachResource` | common/dllserver/thorplugin.cpp:286-327 | of a Mach-O image of such commands, the resource is the first section of the text segment that has the name and lies in the file |

## Left out

- TypeCache.OneLiveTypePerKey: is about types that go through `commonUpType`; the separate singleton caches for integers, strings and the like are permanent base types here.
- TypeCache.DeletingKeepsInv: the address is free for reuse once the destructor has begun; the order of the steps inside a destructor is not modelled.
- TypeCache: types with two hashed parts (a function's parameters and attributes) have one base type here, and a function's attributes, which `equals` ignores, are left out.
- Extractor: parsing of attribute descriptions, buckets and units (`parseAttribute`); an attribute is given as parsed.
- MetaState.MetaInfoState.OnEvent: how a logical name is derived from a path is left out.
- MetaState.EventsResolve: the sources are opened before the first event, as `addSource` has it.
- GroupRender.Report: what `formatValue` and the formatters print is not modelled.
- GroupBy.Collect: the depth of each event's type is given with the event, whatever it is; the fixed table of depths by type is not modelled.
- DumpJson.Dump: escaping, white space and number formatting are left out, so it is about tokens; a run is one outermost visit, since `firstEvent` is not reset for a second.
- DumpXml.Dump: the same.
- The text, CSV and YAML dumps, which have no nesting of their own to keep balanced.
- SchemaBuilder.XmlSchemaBuilder.GetXmlTypeName: types without an XML name, for which the source throws, are excluded, and so are decimals of unknown digits but known precision, which nothing makes.
- SchemaRun.Play: starts from a fresh builder; after `getXml` the type definitions stay while the lists of sizes are cleared, so reuse repeats definitions.
- SchemaBuilder.XmlSchemaBuilder.UpdateMixedRecord: the text is kept as tags, and the position is searched in their printed form; the in-place write is the update of one tag, proved to be the same text.
- EventFilter.Run: the configuration is complete before the run; parsing of filter tokens, comparison prefixes and timestamps is left out.
- Traversal.Traverse: the order in which the multiplexers merge their sources is that of the recording given, and models, which rewrite events on their way to the filter, are left out.
- NumericTypes.PromotionHoldsBoth: booleans, plain integers and decimals of known length; reals, packed, swapped, enumerated and keyed integers and strings are left out.
- NumericTypes.AddFolds: plain integers; multiplication, division, shifts and absolute values depend on C++ overflow.
- NumericTypes.CastLosesIsNotInjective: between plain integers.
- TypeCodec.TypeReadsBack: enumerations, alien, function and unknown types throw when written and are one class here.
- Modifiers.CloneConcatenates: the debug check in `makeModifier` that refuses the same modifier twice is left out.
- RecordMeta.ElementBack: compares trees by structure, not by `operator==`, which compares the constants of conditional blocks by address.
- RecordElements.DeserializeElement: bytes that make the source use a null pointer (a missing child of a record or conditional block, or a constant without a type) count as failing, like a failed assertion.
- Compressed record meta data, and the diagnostic form written to a property tree (`addElementToPTree`).
- ResourceLocator.GetResource: the name of the section is given; mapping files, decompressing resources and loading plugins are left out.
- eventdescribe, whose domain is a few fixed lists.
- `dllserver.cpp`, `environment.cpp` and `dalienv.cpp`, which are thin layers over files, sockets and Dali.
- Floating point, BCD arithmetic, Unicode conversion and locale-aware comparison, which are foreign code.
