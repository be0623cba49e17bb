# Factum in Dafny

Factum stores knowledge nodes that are written as S-expressions, keeps them in an indexed store, answers pattern
queries, arbitrates between conflicting answers and cascades retractions along dependencies. This project models that
behaviour and proves what the repository promises of it. `dafny verify dfyconfig.toml` checks everything.

How the model reads:

- Text is UTF-8 bytes: one `char` of a `Text` is one byte, and `Utf8.Valid` says which byte strings are Rust strings.
- Code that changes things step by step is imperative Dafny. The lexer and the parser are classes with a cursor, the
  serializer appends to an output object, the index backend, the store and the registry are classes, the packed
  encoder writes into an array, and the loops of matching, arbitration and comparison are loops. Every such method is
  proved equal to a specification function, and the theorems are about those functions.
- Hash maps are iterated in an arbitrary order: a method picks any remaining key, a function takes the order as a
  parameter, and the theorems hold for all orders.
- Confidence and authority are exact decimals where text is concerned and reals elsewhere. Weights and vector entries
  are reals. The calendar library is a parameter (`Calendar`) whose only law is that it reads back what it shows.

| files | what they cover |
|---|---|
| `Types`, `Utf8`, `Scalars`, `Decimal` | data types, byte-level text, what it encodes, decimal literals |
| `Lexer`, `Grammar`, `Parser` | lexer, token-level grammar, and the cursors proved against them |
| `Serialize`, `Serializer`, `Printing`, `NodePrinting` | canonical text, its writers, and the text as spelled tokens |
| `Lexemes`, `Parsing`, `RoundTrip`, `Sources` | lexing undoes spelling, parsing undoes printing, both composed, for one node and for many |
| `Comments`, `Forms` | white space and comments, fields left out, repeated or in another order, units |
| `ParserRange`, `Reread`, `FixedPoint` | what the parser can return, what its printed text is read as, when that is the same |
| `Skipping` | what skipping an unknown form skips |
| `Storage`, `SortedScan`, `Bags` | index keys, the in-memory index, the walk over sorted keys |
| `Cascade`, `Store`, `Lookup`, `FactumStore` | cascading retraction, the store and its write-ahead log, lookups and restart, the store object |
| `Matching`, `Query`, `QueryEngine` | pattern matching, the query pipeline, its loops |
| `Arbitration`, `Voting`, `Winners`, `Refusal`, `Duplicates`, `Arbiter` | conflict policies, the weighted vote, who is answered, independence of order, matches listed twice, the loops |
| `PackedCodec`, `PackedLayout`, `PackedRecovery`, `PackedExact`, `PackedEncoder` | the packed codec, its numbers, its error bounds, its round trip, its loops |
| `SemEquiv`, `Morphemes` | semantic comparison, the registry under concurrency |

What the code does that its documentation does not say, each stated by a theorem below:

- The law `parse(serialize(parse(x))) == parse(x)` fails for bare symbols such as `a/b`, which are read as entities and
  printed as `@a/b`, and for durations of 2^64 nanoseconds or more; where provenance needs no escapes it holds exactly
  for all other texts below the token limit (`FixedPoint.ParsedRoundTripIff`). Provenance texts are printed without
  escapes (`FixedPoint.RawTextIff`).
- `parse(canonical(node)) == node` also needs a node that fits the text form, nested no deeper than the parser goes, with
  no resolved head, which prints as `M<n>` and comes back as a name (`FixedPoint.VerifyRoundtripIff`).
- `skip_sexp` counts brackets of both kinds up but only one kind down: an unknown form with a list in it swallows every
  node after it, without an error (`Skipping.UnknownForm`, `Skipping.ListLosesNodes`).
- A decimal text with more than 255 fraction digits is accepted with its scale reduced modulo 256, which changes its
  value (`Decimal.DecFromStrKeepsValue`).
- With an entity filter a node that names the entity twice is listed twice and then ties with itself, so a query whose
  winner does is refused (`Query.EntityPathIsFilteredScan`, `Duplicates.QueryRefusesIff`).
- A weighted vote can depend on orders: with a negative weight on the iteration order of a hash map, and with default
  weights on the order of arrival, when two predicates that differ only in resolved heads share a signature
  (`Voting.NegativeWeightGuesses`, `Voting.ResolvedHeadVoteGuesses`, `Voting.VoteDependsOnOrders`).
- An id with a zero byte does not survive its index key (`Storage.DecodeEncoded`).
- After 2^32 names the registry gives ids out twice (`Morphemes.TwoNamesOneId`).
- The packed codec turns an unregistered head into the first registry entry, and from head index 12500 on always
  decodes another head (`PackedExact.UnregisteredHeadBecomesFirst`, `PackedExact.LargeHeadLost`).
- Retracting an already retracted root does nothing, even when an earlier truncated cascade left nodes behind
  (`Cascade.RunOnRetracted`).

## Model

| member | source | states |
|---|---|---|
| Decimal.DecRoundTrip | crates/factum-core/src/types.rs:301-355 | a decimal literal survives printing and parsing for every mantissa and scale if and only if the mantissa is not the least i128 |
| Decimal.DecFromStrKeepsValue | crates/factum-core/src/types.rs:302-335 | an accepted text keeps its value exactly when it has at most 255 fraction digits or is zero, and printing what was read is a fixed point |
| Decimal.DecimalTexts | crates/factum-core/src/types.rs:302-335 | white space, a sign or none, digits, and perhaps a point and more digits are read as those digits with that sign and the number of digits behind the point as scale, cut to a byte; without a digit, or beyond i128, they are refused |
| Decimal.OnlyDecimalTexts | crates/factum-core/src/types.rs:302-335 | every accepted text is of that form |
| Decimal.ScoreTexts | crates/factum-core/src/parser.rs:316-321 | a score is read from a sign or none, digits, and perhaps a point and more digits, at least one in all |
| Decimal.ScoreRoundTrip | crates/factum-core/src/serialize.rs:45-58 | a confidence or authority is read back from its canonical text |
| Lexer.Lexer.Tokenize | crates/factum-core/src/lexer.rs:91-121 | the cursor's token list is that of the byte-level specification, errors included, with the token limit checked before every token |
| Lexer.Lexer.NextToken | crates/factum-core/src/lexer.rs:162-185 | one token is read as specified and the cursor moves by exactly its bytes |
| Lexer.Lexer.LexString | crates/factum-core/src/lexer.rs:187-232 | the bytes consumed and the text of a string literal, escapes included, or the exact error |
| Lexer.Lexer.LexHashToken | crates/factum-core/src/lexer.rs:375-441 | flags, dates and durations after `#`, or the exact error |
| Lexer.Lexer.LexNumberToken | crates/factum-core/src/lexer.rs:443-494 | the extent of a number token |
| Lexer.Lexer.LexSymbolToken | crates/factum-core/src/lexer.rs:496-523 | the extent of a symbol |
| Lexemes.NextSpelled | crates/factum-core/src/lexer.rs:162-523 | every well-spelled token is read back whole, whatever may follow it |
| Lexemes.LexRender | crates/factum-core/src/lexer.rs:91-121 | lexing undoes spelling for every sequence of well-spelled tokens up to the token limit |
| Lexemes.LexTooMany | crates/factum-core/src/lexer.rs:101-108 | beyond the limit lexing fails with the token error, whatever the tokens and whatever follows them |
| Comments.CommentSkipped | crates/factum-core/src/lexer.rs:123-146 | a comment is skipped up to and including the end of its line, whatever follows |
| Comments.LastComment | crates/factum-core/src/lexer.rs:123-146 | a comment on the last line is skipped to the end of the text |
| Comments.BlankSkipped | crates/factum-core/src/lexer.rs:123-146 | a space, tab, carriage return or line feed is skipped |
| Comments.SpreadParses | crates/factum-core/src/lexer.rs:123-146 | white space and comments anywhere between tokens leave the parsed nodes as they are |
| Serializer.Canonical | crates/factum-core/src/serialize.rs:60-146 | the appending writers produce the canonical text of a node |
| Serializer.CanonicalAll | crates/factum-core/src/serialize.rs:73-81 | the loop over nodes writes their texts, each on a line of its own |
| Serializer.WritePredicate | crates/factum-core/src/serialize.rs:148-172 | a predicate's text is appended to what was written before |
| Serializer.WriteTerm | crates/factum-core/src/serialize.rs:174-199 | a term's text is appended to what was written before |
| Serializer.WriteQuoted | crates/factum-core/src/serialize.rs:201-235 | a string literal is appended with exactly the five escapes |
| Forms.EscapedIsOneLine | crates/factum-core/src/serialize.rs:201-235 | an escaped string holds no line break and no tab |
| Printing.PredicateRender | crates/factum-core/src/serialize.rs:148-172 | the canonical text of a predicate is the spelling of its tokens |
| NodePrinting.NodeRender | crates/factum-core/src/serialize.rs:83-146 | the canonical text of a node is the spelling of its tokens |
| NodePrinting.NodeSpelled | crates/factum-core/src/serialize.rs:83-276 | every token of a node that fits is spelled so that the lexer can read it back |
| Parser.Parser.Term | crates/factum-core/src/parser.rs:413-485 | a term is parsed as the grammar says; on every exit the cursor is in bounds and has not moved back and the nesting counter is restored |
| Parser.Parser.Body | crates/factum-core/src/parser.rs:376-411 | positional and named arguments as the grammar says, with the same care for cursor and counter |
| Parser.Parser.NodeForm | crates/factum-core/src/parser.rs:220-304 | a node form is parsed as the grammar says, fields in any order, each required field checked |
| Parser.Parser.SkipForm | crates/factum-core/src/parser.rs:194-218 | an unknown form is skipped as the grammar says, always consuming a token; `Skipping` says where that stops, which is not always the form's own closing bracket |
| Parser.Parser.ProvenanceField | crates/factum-core/src/parser.rs:526-569 | the five provenance forms, or the exact error |
| Parser.Parser.Nodes | crates/factum-core/src/parser.rs:75-108 | the top-level loop terminates and collects the nodes of the specification |
| Parser.ParseSource | crates/factum-core/src/parser.rs:75-108 | lexer and parser together compute the specified parse |
| Forms.FormParses | crates/factum-core/src/parser.rs:220-371 | a node form with any fields in any order, in their canonical or their short forms: the last of each kind counts, what is left out has its default, and only a form without a predicate is refused |
| Forms.SmallestForm | crates/factum-core/src/parser.rs:220-304 | a form that gives only a predicate is in force forever, asserted by the system, of confidence 0.6 and authority 0.5, public and active |
| Forms.FormRefused | crates/factum-core/src/parser.rs:242-288 | after any fields a form is refused for an unknown keyword, for what is not a keyword, and at the end of the text for the missing parenthesis |
| Forms.NoId | crates/factum-core/src/parser.rs:226-230 | a form without an id is refused |
| Forms.PermissionNames | crates/factum-core/src/parser.rs:323-337 | the four permission names and their bits, and that no other name is read |
| Forms.ScoresAre | crates/factum-core/src/parser.rs:309-321 | a confidence or authority is accepted if and only if it is a number from zero to one |
| Forms.ScoreValue | crates/factum-core/src/parser.rs:309-321 | its value is that of its decimal digits |
| Forms.DurationUnits | crates/factum-core/src/parser.rs:642-675 | how long a duration in seconds, minutes, hours, days or nanoseconds is |
| Forms.NamesAre | crates/factum-core/src/lexer.rs:234-523 | of which bytes names, entity names, symbols and URIs are made |
| Forms.EscapeRead | crates/factum-core/src/lexer.rs:187-232 | what a backslash and any ASCII character stand for in a string |
| Forms.TwoPoints | crates/factum-core/src/lexer.rs:443-494 | a number with two points is refused |
| Forms.LimitsAreKept | crates/factum-core/src/parser.rs:75-108 | the token limit of 1 000 000 and the depth limit of 128, by what a node's text comes to |
| Scalars.ValidIff | crates/factum-core/src/lexer.rs:234-262 | the byte strings taken for strings are exactly the UTF-8 encodings of sequences of scalar values |
| Skipping.SkipForm | crates/factum-core/src/parser.rs:194-218 | skipping a balanced form goes on after its own closing bracket with as many brackets still counted as open as brackets of the other kind were opened inside |
| Skipping.SkipStopsIff | crates/factum-core/src/parser.rs:194-218 | skipping a balanced form stops right after its own closing bracket if and only if no bracket of the other kind is inside or nothing follows |
| Skipping.UnknownForm | crates/factum-core/src/parser.rs:88-108 | an unknown form before well-bracketed tokens: without a list in it parsing goes on after it, with one everything after it is lost and no error is returned |
| Skipping.UnknownFormInFile | crates/factum-core/src/parser.rs:88-108 | the same of a text: any unknown form on the first line before any number of canonical nodes |
| Skipping.ListLosesNodes | crates/factum-core/src/parser.rs:88-108 | `(x [])` before any number of nodes: parsing succeeds with no node |
| ParserRange.LexRange | crates/factum-core/src/lexer.rs:91-523 | what the lexer can return, for every text: symbols, names and entity names of their character classes, all texts well-formed UTF-8 |
| ParserRange.ParsedNodes | crates/factum-core/src/parser.rs:75-304 | what the parser can return, for every text: nodes that are active, with named heads, nested no deeper than the limit, with symbols as ids, scores in the unit interval and one of the four tags, and terms that fit the text form but for their leaves |
| Parsing.TermReadBack | crates/factum-core/src/parser.rs:413-485 | a term's tokens are parsed back to it exactly when its nesting fits under the depth limit, otherwise the depth error |
| Parsing.BodyReadBack | crates/factum-core/src/parser.rs:376-411 | a predicate's tokens are parsed back to it, heads by name, exactly when it fits under the depth limit |
| RoundTrip.NodeRoundTrip | crates/factum-core/src/serialize.rs:83-276 | what parsing the canonical text returns for every node that fits: the token errors, the depth error, or exactly that node with its note |
| Sources.AllRoundTrip | crates/factum-core/src/serialize.rs:73-81 | the same of the text of any number of nodes |
| FixedPoint.VerifyRoundtripIff | crates/factum-core/src/serialize.rs:465-485 | when the repository's own round-trip check passes, if and only if, for every node whose provenance texts need no escapes: the node fits the text form, is below the token limit, nested no deeper than the parser goes and has no resolved head |
| FixedPoint.ParsedRoundTripIff | README.md:162 | `parse(serialize(parse(x))) == parse(x)`: for every text whose provenance needs no escapes it holds if and only if every entity is an entity name, every duration is below 2^64 nanoseconds and the text is below the token limit |
| FixedPoint.PredicateRoundTripIff | crates/factum-core/src/parser.rs:111-126 | the same of predicates, for every text |
| FixedPoint.BareSymbolRead | crates/factum-core/src/parser.rs:475-478 | every symbol is read as an entity, which survives if and only if it is an entity name |
| FixedPoint.LongDurationRead | crates/factum-core/src/parser.rs:642-675 | a duration in seconds is read; it survives if and only if it is below 2^64 nanoseconds |
| FixedPoint.RawTextIff | crates/factum-core/src/serialize.rs:239-276 | a provenance text is read back from between its quotes if and only if it holds no quote and no backslash |
| Reread.ReparseNode | crates/factum-core/src/serialize.rs:465-485 | the node read from a printed node differs at most in its predicate, and does unless its leaves carry |
| RoundTrip.PredicateRoundTrip | crates/factum-core/src/parser.rs:111-126 | parsing a predicate's canonical text gives it back, or the depth error |
| RoundTrip.SameTextSamePredicate | crates/factum-core/src/serialize.rs:67-71 | two predicates have the same canonical text exactly when they are the same up to writing resolved heads as names, with no limit on size or depth |
| RoundTrip.SignatureDecidesEquality | crates/factum-rt/src/arbitration.rs:399-402 | grouping by signature is grouping by structural equality for predicates a parser can produce |
| Storage.DecodeEncoded | crates/factum-rt/src/storage.rs:101-127 | an index key decodes to the id it was made for if and only if the id holds no zero byte |
| Storage.MeetsExactly | crates/factum-rt/src/storage.rs:101-118 | for all texts: which names and ids a scan for a prefix meets |
| Storage.ScanMeets | crates/factum-rt/src/storage.rs:101-118 | a zero-free prefix meets exactly the keys of its own name and of names that continue it after a zero byte |
| Storage.ScanSeparates | crates/factum-rt/src/storage.rs:101-118 | zero-free or equally long prefixes never meet each other's keys |
| Storage.InMemoryBackend.PutIndex | crates/factum-rt/src/storage.rs:211-220 | the index lists at every key exactly the ids put there, in order |
| Storage.InMemoryBackend.ScanIndex | crates/factum-rt/src/storage.rs:195-209 | a scan returns, in any order of the map, the ids of all entries under the prefix as often as they were put |
| Storage.InMemoryBackend.IterNodes | crates/factum-rt/src/storage.rs:257-259 | every stored node once |
| SortedScan.PastPrefix | crates/factum-rt/src/rocksdb_backend.rs:104-122 | keys sharing a prefix are contiguous in byte order |
| SortedScan.ScanSorted | crates/factum-rt/src/rocksdb_backend.rs:104-122 | the walk that breaks at the first key past the prefix misses no key with the prefix |
| SortedScan.SortedScanExact | crates/factum-rt/src/rocksdb_backend.rs:104-122 | a scan returns an id if and only if it was put under the prefix |
| SortedScan.MemoryScanExact | crates/factum-rt/src/storage.rs:195-209 | the in-memory scan returns an id as often as it was put under the prefix |
| SortedScan.BackendsAgree | crates/factum-rt/src/rocksdb_backend.rs:104-122 | both backends answer with the same set of ids |
| Cascade.RunSafe | crates/factum-rt/src/store.rs:318-404 | on any graph the retracted list has no duplicates, holds only reachable nodes that were not retracted, exactly their statuses changed, the budget is kept and the depth is below the list's length |
| Cascade.RunRetractsDerived | crates/factum-rt/src/store.rs:381-401 | truncated or not, everything retracted besides the root was active and derived |
| Cascade.RunDepth | crates/factum-rt/src/store.rs:354-356 | the depth reported is the greatest level of a retracted node, where the root has level 0 and every other one level more than one retracted before it that it depends on |
| Cascade.RunExact | crates/factum-rt/src/store.rs:338-404 | untruncated, the retracted set is the root and everything reachable through active derived nodes, cycles and diamonds included |
| Cascade.RunTruncatedIffLeftover | crates/factum-rt/src/store.rs:352-399 | the flag is set if and only if a dependent of a retracted node is still active and derived |
| Cascade.RunTruncatedIffOverBudget | crates/factum-rt/src/store.rs:352-399 | the flag is set if and only if the cascade reaches more nodes than the budget, whatever the order of dependents |
| Cascade.RunOnRetracted | crates/factum-rt/src/store.rs:362-365 | retracting a retracted root changes nothing |
| Cascade.RunOrderIndependent | crates/factum-rt/src/store.rs:378-401 | edges matter only as sets: truncation and the untruncated result do not depend on their order or repetition |
| Store.EveryRunConsistent | crates/factum-rt/src/store.rs:218-376 | over every run from empty, replaying the write-ahead log gives the stored nodes and every index is that of the inserted nodes in order |
| Store.EveryRunPreserves | crates/factum-rt/src/store.rs:218-376 | over every run no id disappears, only a status can change and only to retracted, and the indices stay right, also on reopened stores |
| Store.BatchIsInserts | crates/factum-rt/src/store.rs:254-296 | a batch changes nothing or equals its nodes inserted one by one and a checkpoint |
| Store.BatchAccepted | crates/factum-rt/src/store.rs:256-275 | a batch is accepted if and only if separate inserts would all be accepted |
| Store.RetractKeeps | crates/factum-rt/src/store.rs:318-376 | retraction keeps the log replayable and the indices right |
| Lookup.DependentsCount | crates/factum-rt/src/store.rs:574-583 | the reverse edges list a node under an id exactly as often as its deps name that id |
| Lookup.RetractionFollowsDeps | crates/factum-rt/src/store.rs:318-404 | in every store, from empty or reopened, an untruncated retraction retracts exactly the node and the active derived nodes that depend on it through a chain of such nodes, by the stored nodes' own deps |
| Lookup.RetractedWereDerived | crates/factum-rt/src/store.rs:318-404 | whatever a call retracts besides the node asked for was active and derived |
| Lookup.RetractionDepth | crates/factum-rt/src/store.rs:354-356 | the depth reported is the greatest level by the stored nodes' own deps |
| Lookup.ValidAtExact | crates/factum-rt/src/store.rs:462-481 | the temporal lookup returns exactly the nodes that are active and at the instant not before their start and before their end, once each, although keys are whole seconds |
| Lookup.EntityLookup | crates/factum-rt/src/store.rs:437-442 | for all texts, an entity scan lists a node as often as the node names, outside compounds' named arguments, something the scan meets |
| Lookup.EntityLookupExact | crates/factum-rt/src/store.rs:507-572 | it lists a node exactly as often as the node names the entity if and only if the node names nothing else the scan meets |
| Lookup.EntitiesAre | crates/factum-rt/src/store.rs:555-572 | an entity is indexed for a predicate if and only if it stands at the end of a path through lists and the positional arguments of compounds that starts in an argument, positional or named |
| Lookup.EntityLookupTimes | crates/factum-rt/src/store.rs:507-572 | for zero-free names a node is listed as often as the entity stands in its predicate |
| Lookup.HeadScan | crates/factum-rt/src/store.rs:521-531 | a node with a named head is listed exactly once under it |
| Lookup.SourceLookup | crates/factum-rt/src/store.rs:451-456 | for all texts, a source scan lists a node once if it meets the node's source and never otherwise |
| Lookup.SourceLookupExact | crates/factum-rt/src/store.rs:451-456 | for zero-free names that is the document of a citation, the node something was derived from, or the principal who asserted it |
| Lookup.PermissionLookup | crates/factum-rt/src/store.rs:546-548 | the four-byte permission prefix separates exactly the nodes that carry the tag |
| Lookup.EveryRunAnswers | crates/factum-rt/src/store.rs:507-583 | after every run from an empty store the indices answer by the stored nodes alone |
| Lookup.RestartSameIndices | crates/factum-rt/src/store.rs:148-185 | rebuilt and incrementally kept indices list the same ids equally often under every key, for any order of nodes |
| Lookup.RestartSameCascade | crates/factum-rt/src/store.rs:148-185 | a cascade on a reopened store truncates alike and, untruncated, retracts the same nodes |
| Lookup.RestartSameValidAt | crates/factum-rt/src/store.rs:148-185 | a temporal lookup answers alike before and after a restart |
| FactumStore.FactumStore.constructor | crates/factum-rt/src/store.rs:125-138 | opening rebuilds the in-memory indices from the stored nodes in some order |
| FactumStore.FactumStore.Insert | crates/factum-rt/src/store.rs:218-252 | insert does to the store's value what the specification says, keeps every index right and returns the exact error |
| FactumStore.FactumStore.InsertBatch | crates/factum-rt/src/store.rs:256-296 | likewise for a batch |
| FactumStore.FactumStore.RetractWithLimit | crates/factum-rt/src/store.rs:318-332 | likewise for retraction, its list, flag and depth |
| FactumStore.FactumStore.RetractRecursive | crates/factum-rt/src/store.rs:338-404 | the recursion terminates, computes the specified walk and logs exactly the ids it adds |
| FactumStore.FactumStore.LookupBy | crates/factum-rt/src/store.rs:437-456 | lookups return the active nodes of the scan, as often as it lists them |
| FactumStore.FactumStore.LookupValidAt | crates/factum-rt/src/store.rs:462-481 | exactly the active nodes valid at the instant, once each |
| Matching.MatchingExact | crates/factum-rt/src/query.rs:161-239 | matching succeeds if and only if some substitution makes the pattern the concrete predicate; its bindings are distinct, cover the variables outside compounds and are what every such substitution says |
| Matching.PatternSound | crates/factum-rt/src/query.rs:161-201 | the bindings are themselves a substitution that makes the pattern the concrete predicate |
| Matching.PatternComplete | crates/factum-rt/src/query.rs:161-201 | any substitution that works is found, and the bindings are part of it |
| QueryEngine.MatchTermInto | crates/factum-rt/src/query.rs:204-239 | the loops over a shared binding list compute the specified match |
| QueryEngine.MatchPredicate | crates/factum-rt/src/query.rs:161-201 | likewise for whole predicates |
| QueryEngine.FindMatches | crates/factum-rt/src/query.rs:93-129 | the query's filters and matches on the index's candidates, in their order |
| Query.QueryKeeps | crates/factum-rt/src/query.rs:82-129 | a node is among the matches if and only if it is stored, active, carries a permission of the mask, is in force, has at least the confidence asked for, names what the entity filter meets, and the pattern becomes its predicate under some substitution; what its matches bind |
| Query.IndexPathIsFullScan | crates/factum-rt/src/query.rs:93-156 | the index-driven pipeline gives the same multiset of matches as filtering and matching all stored nodes |
| Query.EntityPathIsFilteredScan | crates/factum-rt/src/query.rs:140-146 | for all texts, with an entity filter a match of the full scan is listed as often as its node names something the scan meets, and nothing else is |
| Query.ZeroFreeEntityPath | crates/factum-rt/src/query.rs:140-146 | for zero-free names that is as often as the node names the entity |
| Query.InvisibleNodesLeaveNoTrace | crates/factum-rt/src/query.rs:97-115 | two stores that differ only in nodes the context may not see give the same matches, with and without an entity filter |
| Refusal.QueryHidesInvisibleNodes | crates/factum-rt/src/query.rs:82-146 | a whole query, arbitration included, with and without an entity filter, refuses alike or answers the same predicates on two stores that differ only in nodes the context may not see, for any histories and iteration orders; under WeightedVote if no group is undecided |
| Refusal.RefusesRatherThanGuesses | crates/factum-rt/src/arbitration.rs:111-255 | for every grouping key, permutation of the matches and hash-map order: both runs refuse, or they answer the same predicates equally often, with the same nodes under LatestWins and HighestAuthority; under WeightedVote if no group is undecided |
| Refusal.QueryVoteGuessesIff | crates/factum-rt/src/arbitration.rs:203-243 | the weighted vote of a query pattern has two different outcomes, depending on orders, if and only if it is undecided |
| Voting.VoteDependsOnOrders | crates/factum-rt/src/arbitration.rs:203-243 | for any weights a vote depends on the order of arrival or of the hash map if and only if two matches with different predicates lie in heaviest classes with a majority |
| Voting.NonNegativeUndecided | crates/factum-rt/src/arbitration.rs:203-243 | without negative weights that is so exactly when the class with the majority holds two different predicates |
| Voting.DistinguishedDecided | crates/factum-rt/src/arbitration.rs:203-243 | so with such weights and signatures that tell predicates apart it never is |
| Voting.ResolvedHeadVoteGuesses | crates/factum-rt/src/arbitration.rs:397-402 | two facts, one with a resolved head and one with the name it prints as, are counted as one and the first to arrive is answered, under default weights |
| Voting.VoteDependsOnOrder | crates/factum-rt/src/arbitration.rs:226-243 | a weighted vote depends on the hash-map order alone if and only if two classes share a majority |
| Voting.NonNegativeNeverShares | crates/factum-rt/src/arbitration.rs:226-243 | without negative weights no two classes share a majority |
| Voting.NegativeWeightGuesses | crates/factum-rt/src/arbitration.rs:203-243 | with a negative weight two classes can |
| Voting.CanonicalDistinguishes | crates/factum-rt/src/arbitration.rs:192-225 | WeightedVote and Unanimous agree on what counts as the same fact |
| Duplicates.LatestRefusesIff | crates/factum-rt/src/arbitration.rs:146-168 | a class is refused under LatestWins if and only if its winner is listed twice or another match ties with it |
| Duplicates.AuthorityAnswersIff | crates/factum-rt/src/arbitration.rs:171-191 | a class of several is answered under HighestAuthority if and only if one match, listed once, stands alone near the highest authority |
| Duplicates.LatestDuplicates | crates/factum-rt/src/arbitration.rs:146-168 | listing matches again makes LatestWins refuse a class it would answer if and only if the winner is listed twice |
| Duplicates.AuthorityDuplicates | crates/factum-rt/src/arbitration.rs:171-191 | the same under HighestAuthority |
| Duplicates.DuplicatesRefuse | crates/factum-rt/src/arbitration.rs:111-191 | for whole arbitrations under both policies, any key and all orders: the same, with the winner of some class |
| Duplicates.QueryRefusesIff | crates/factum-rt/src/query.rs:82-146 | under both policies a query refuses because of the index if and only if the winner of some class names the entity, or what else the scan meets, more than once |
| Duplicates.NamedTwiceRefuses | crates/factum-rt/src/query.rs:140-146 | a stored winner that names the entity twice makes the query refuse |
| Arbitration.LatestSame | crates/factum-rt/src/arbitration.rs:135-170 | permuting a class under LatestWins changes neither the refusal nor the winning node |
| Arbitration.AuthoritySame | crates/factum-rt/src/arbitration.rs:171-191 | likewise under HighestAuthority |
| Arbitration.UnanimousSame | crates/factum-rt/src/arbitration.rs:192-202 | permuting a group under Unanimous changes neither the refusal nor the predicate |
| Arbitration.WinnersExist | crates/factum-rt/src/arbitration.rs:178-190 | the winner HighestAuthority indexes exists if and only if some authority is above -0.001 |
| Winners.LatestAnswersBest | crates/factum-rt/src/arbitration.rs:135-170 | under LatestWins a class is answered by a match of highest authority and, among those, a most recent one, and refused if and only if another has an authority within 0.001 of that and the same start |
| Winners.LatestAnswersLast | crates/factum-rt/src/arbitration.rs:146-152 | of several best the one listed last is answered |
| Winners.LatestWinsAnswers | crates/factum-rt/src/arbitration.rs:111-170 | the same of whole arbitrations: of the matches that compete with a match exactly one is answered, and it is such a one |
| Winners.AuthorityAnswersTop | crates/factum-rt/src/arbitration.rs:171-191 | under HighestAuthority a class of several is answered by its first match within 0.001 of the highest authority and refused unless it is the only one |
| Winners.HighestAuthorityAnswers | crates/factum-rt/src/arbitration.rs:111-191 | the same of whole arbitrations |
| Winners.AnswersAreMatches | crates/factum-rt/src/arbitration.rs:111-191 | nothing but matches is answered |
| Winners.UnanimousAnswers | crates/factum-rt/src/arbitration.rs:192-202 | under Unanimous a group of several is answered if all predicates are equal and refused otherwise |
| Winners.VoteAnswersMajority | crates/factum-rt/src/arbitration.rs:203-243 | a weighted vote is answered by a match for whose predicate text there is more than half of all weight, and refused if and only if there is none |
| Winners.ArbitrationIsItsGroups | crates/factum-rt/src/arbitration.rs:109-260 | every group's answers are among the answers, and a query is refused if and only if some group is |
| Arbiter.ArbitrateMatches | crates/factum-rt/src/arbitration.rs:111-255 | the loops over groups compute the specified outcome for the order they happened to take |
| Arbiter.GroupBy | crates/factum-rt/src/arbitration.rs:340-347 | grouping keeps every match under its key in order of arrival |
| Arbiter.Count | crates/factum-rt/src/arbitration.rs:203-225 | the vote's map holds each class's total weight and first match |
| Arbiter.LatestWinner | crates/factum-rt/src/arbitration.rs:146-168 | the loops for maximum and ties compute the specified outcome |
| PackedRecovery.StringRecovered | crates/factum-l/src/packed_codec.rs:133-174 | decoding a blurred string gives its longest charset prefix that fits, for every text |
| PackedRecovery.RecoverOperated | crates/factum-l/src/packed_codec.rs:447-453 | dividing by the scale reference undoes the normalization up to noise times norm |
| PackedRecovery.NormBounded | crates/factum-l/src/encoder.rs:77-89 | heads up to index 12000 keep the norm below 40.35 |
| PackedLayout.VectorInNumbers | crates/factum-l/src/packed_codec.rs:318-374 | every entry of the vector in numbers |
| PackedLayout.CharacterCodes | crates/factum-l/src/packed_codec.rs:113-131 | the code of every character |
| PackedLayout.HeadNumbers | crates/factum-l/src/packed_codec.rs:307-316 | a registered head has the index of its first entry, an unregistered one 0 |
| PackedLayout.KindsOfTerms | crates/factum-l/src/packed_codec.rs:195-222 | the kind of every term |
| PackedLayout.ItemsJoined | crates/factum-l/src/packed_codec.rs:212-221 | the text of a list is its items' texts with spaces between them |
| PackedLayout.TrueTexts | crates/factum-l/src/packed_codec.rs:242-245 | which texts are read as true |
| PackedLayout.RoundsNearest | crates/factum-l/src/packed_codec.rs:140-146 | rounding is to the nearest integer, halves away from zero |
| PackedLayout.OutOfRange | crates/factum-l/src/packed_codec.rs:140-146 | a number of at most 0 is two sentinels, one of at least 1 the last pair of characters |
| PackedLayout.VanishedScale | crates/factum-l/src/packed_codec.rs:447-516 | a vector whose scale has vanished decodes as the first registry entry without arguments |
| PackedExact.PackedRoundTrip | crates/factum-l/src/packed_codec.rs:318-516 | for every node with a head index of at most 12000, encoding, normalizing, noise and decoding give the registered head and the first three arguments rebuilt from their charset prefixes |
| PackedExact.PackedExactRecovery | crates/factum-l/src/benchmark.rs:171-184 | at most three leaf arguments of 1 to 12 charset characters under a registered head come back exactly |
| PackedExact.TextKeptIff | crates/factum-l/src/packed_codec.rs:490-516 | a text comes back unchanged if and only if it has 1 to 12 charset characters |
| PackedExact.HeadRecoveredIff | crates/factum-l/src/packed_codec.rs:455-465 | the head index survives the benchmark's operation if and only if noise, norm and distance from 300 stay within a half-step |
| PackedExact.LargeHeadLost | crates/factum-l/src/packed_codec.rs:455-465 | from index 12500 on it never does |
| PackedExact.UnregisteredHeadBecomesFirst | crates/factum-l/src/packed_codec.rs:307-316 | an unregistered head comes back as the first registry entry |
| PackedEncoder.EncodePredicate | crates/factum-l/src/packed_codec.rs:334-374 | the in-place writes fill the vector as specified, missing arguments left zero |
| PackedEncoder.EncodeNode | crates/factum-l/src/packed_codec.rs:318-374 | the vector of a node is the specified one |
| PackedEncoder.WriteString | crates/factum-l/src/packed_codec.rs:148-160 | the encoding loop computes the specified floats |
| PackedEncoder.ReadString | crates/factum-l/src/packed_codec.rs:162-174 | the decoding loop stops at the first sentinel as specified |
| SemEquiv.ComparesExactly | crates/factum-l/src/sequiv.rs:151-357 | predicates are Exact if and only if equal after resolving heads, Different if and only if of different shape, otherwise WrongValues with a score of 0.3 less 0.1 for each position at which they differ, from three on 0.0, and never MetadataDrift |
| SemEquiv.TermsCompareExactly | crates/factum-l/src/sequiv.rs:258-357 | the same of terms: 0.2 for different variables, 0.3 for different entities and literals of one kind, and lists scored by the positions at which they differ |
| SemEquiv.PredicateSymmetric | crates/factum-l/src/sequiv.rs:151-357 | level and score are symmetric |
| SemEquiv.NodesCompareExactly | crates/factum-l/src/sequiv.rs:119-148 | nodes are Exact, MetadataDrift at 0.85, or as their predicates compare, exactly by resolved equality and metadata |
| SemEquiv.ComparisonSymmetric | crates/factum-l/src/sequiv.rs:119-148 | comparing nodes is symmetric |
| SemEquiv.CompareBoth | crates/factum-l/src/sequiv.rs:151-255 | the loops with early return compute the specified comparison |
| SemEquiv.CompareTwo | crates/factum-l/src/sequiv.rs:258-357 | likewise for terms |
| Morphemes.EveryInterleaving | crates/factum-core/src/morphemes.rs:126-181 | in every interleaving of lock steps that registers at most 2^32 names the invariant holds throughout and both maps only grow |
| Morphemes.InverseWhenFree | crates/factum-core/src/morphemes.rs:126-150 | whenever the name map's write lock is free the maps are mutually inverse and ids are dense |
| Morphemes.OneIdPerName | crates/factum-core/src/morphemes.rs:126-150 | all callers that register a name, and all that resolve it afterwards and find it, get one id |
| Morphemes.LookupFindsDefinition | crates/factum-core/src/morphemes.rs:164-169 | a lookup that found an id finds its definition, under the right name |
| Morphemes.KnownIsAnswered | crates/factum-core/src/morphemes.rs:126-181 | in every interleaving, a call that begins when its name is registered, or its id given, is answered by that |
| Morphemes.NothingInvented | crates/factum-core/src/morphemes.rs:152-181 | what is not there when a call is over was not found |
| Morphemes.EveryStepCounts | crates/factum-core/src/morphemes.rs:126-181 | every call is over after at most nine steps of its own |
| Morphemes.NoDeadlock | crates/factum-core/src/morphemes.rs:126-181 | the fixed lock order excludes deadlock, with and without writer preference |
| Morphemes.IdsWrap | crates/factum-core/src/morphemes.rs:142 | whenever 2^32 names are registered the next one is given another name's id |
| Morphemes.TwoNamesOneId | crates/factum-core/src/morphemes.rs:126-150 | there is a run after which two names have the id 0 |
| Morphemes.AloneIsWhole | crates/factum-core/src/morphemes.rs:126-150 | a thread alone steps through register, for a new name and for a known one, to what the whole call does |
| Morphemes.MorphemeRegistry.Register | crates/factum-core/src/morphemes.rs:126-150 | one call adds a new name under the next id or returns the old id, keeping the maps inverse |

## Left out

- Line and column numbers, byte offsets and the wording of error messages: errors are distinguished by kind.
- Decimal.ScoreRoundTrip: scores are exact decimals where text is concerned, while the program rounds them to f32.
- f32 rounding elsewhere: weights and vector entries are reals, and the norm is any number whose square is the sum of squares.
- Decimal texts of scores in exponent form, infinities and NaN: the model reads and writes plain decimals.
- FixedPoint.ParsedRoundTripIff: says nothing of nodes whose provenance texts hold a quote or a backslash, because what follows such a text is then read with quoted and unquoted parts exchanged and can set any field again; `FixedPoint.RawTextIff` says that the text itself is not read back.
- FixedPoint.VerifyRoundtripIff: likewise asks that provenance texts need no escapes.
- chrono's date engine: dates and instants are shown and read by the `Calendar` parameter; lenient date forms are its affair.
- Non-ASCII white space trimmed around a decimal text and non-ASCII letters as word characters of a byte-level scan: the model works on bytes.
- `delete_node`, `delete_index` and the unknown-column-family error: the store never deletes, and families are a datatype.
- RocksDB itself, bincode and storage failures: only the scan over sorted keys is modelled, as a walk over the sorted list of keys.
- Concurrent `insert` and `insert_batch`: the store is sequential, since the duplicate check and the write are not under one lock.
- FactumStore.FactumStore.LookupValidAt: does not promise the order of the results, which the tree's key order gives in the source.
- FactumStore.FactumStore.LookupBy: does not promise an order of results, as the source's hash map does not either.
- Subscriptions, verifiers' own rules, `get_with_perm`, `all` and `len`: thin wrappers; a verifier is any function from nodes to verdicts.
- Compact JSON: an encoding without a decoder.
- The text of the grouping key in arbitration: the theorems hold for every key, the constant one of a query pattern included.
- The audit trail of differences in `sequiv.rs` and `compare_sequence`: texts and an average.
- PackedExact.PackedRoundTrip: does not say how compounds and lists are rebuilt, because their texts do not fit; rebuilding them is a parameter.
- Character positions of non-ASCII texts in packed strings: the model counts bytes, which agrees up to the first character outside the set, where decoding stops.
- Truncation of a decoded head index to 32 bits: the round trips decode vectors of encoded nodes, whose indices are 32-bit already.
- The source hash and the fixed metadata of decoded nodes in the packed codec, and the baseline encoder: no exact claim to make.
- Definitions of morphemes beyond their names, and the seed table: a definition is represented by its name.
- MCP, HTTP and command-line plumbing, the review queue, calibration constants and benchmarks.
