# A verified model of sqlh's core

sqlh is a Go library of typed, transactional CRUD operations over SQLR entities. This project models
its dense algorithms in Dafny and proves what they promise:

- `TagSyntax.dfy`, `EntityTags.dfy`: the `sqlh` tag language, and the walk over a possibly cyclic graph
  of entity types that collects the relation paths tagged for each phase.
- `Json.dfy`, `PatchDocument.dfy`, `PatchInput.dfy`: JSON Merge Patch (section 2 of RFC 7396), the presence
  oracle over the original document, and the merge into a complete input by marshal, merge, reset, unmarshal.
- `PatchAssociations.dfy`, `PatchNormalize.dfy`, `PatchWrite.dfy`: JSON paths of relations, the relations a
  document selects, the clears it asks for, and the omit and sync sets given to the writer.
- `FieldNames.dfy`, `QueryFields.dfy`, `QueryFilters.dfy`: public field names under Unicode simple folding, their
  mapping to qualified columns, and the compiler from public filters and orders to column filters and joins.
- `Builders.dfy`, `ListPlan.dfy`: query builders as records, and rows and count prepared from one scope.
- `Resource.dfy`: lookup, update, patch and delete, and runs of them.
- `Transaction.dfy`: the transaction runner, and histories of requests.
- `Text.dfy`, `GoModel.dfy`, `Wrappers.dfy`: strings and sorting, type and schema descriptors, options and results.

Code that works step by step is modelled by methods with the source's loops and by classes with the
source's fields; each such method is proved equal to a specification function or to an outright
property, and the lemmas are about those. Each main result is also stated once without the specification
function that computes it, on types, tags, documents, rows and columns alone: `ParseEntityBuilderTags` on
trails, `DocumentClears` on parents, `GoPathResolves` and `AutomaticFieldIs` on schemas, `List` on wanted
rows, `UpdateStores`, `DeleteRemoves` and `PatchStores` on tables. `dafny verify dfyconfig.toml` checks
everything.

## What the proofs found

- A merge is meant to be decoding into a fresh value, with what JSON does not see kept. It is, exactly unless one of
  three things happens (`MergeRefinesFresh`, `Residue`). An embedded pointer that is untagged or tagged with its own
  lower-camel name is reset from inside, so it stays set although the merged document has nothing for it
  (`ResidueExists`, `UntaggedResidueExists`); two inputs merged to the same document may then differ
  (`EqualMergesEndEqual`, `EqualMergesEndDifferent`). An embedded struct under any other key is zeroed as a whole, with
  its hidden fields (`HiddenFieldLost`). An unexported embedded struct is not reset at all
  (`UnexportedEmbedIsNotReset`); that embedded structs are exported suffices, it is not necessary.
- The JSON path derived for a relation drops the keys of embedded structs, so it is where the field is marshalled to
  exactly if no embedded struct on the way has a key (`DerivedPathLocates`, `KeyedEmbeddingMislocates`).
- The package documentation says that a transaction is rolled back on every error. The code rolls back exactly if
  Commit was not called, so not after a Commit that fails (`RolledBackUnlessCommitted`,
  `FailedCommitIsNotRolledBack`), and it leaves a transaction open whose operation ends its goroutine with
  `runtime.Goexit`: the deferred function then sees neither a panic nor an error (`EveryBegunIsFinished`,
  `ExitLeavesTransactionOpen`).
- The presence oracle denies paths whose first segment is empty, though the merge sets them
  (`OracleIsExact`, `EmptyKeyIsNotPresent`).
- Association clears are independent of order when JSON paths are derived (`OrderDoesNotMatter`). Overrides can make
  two clears overlap (`OverridesOverlap`). The code then performs the upper one first (`UpperClearsFirst`), and where
  both orders succeed they differ exactly if the lower clear changes something in a field the upper one has emptied
  (`OverlapOrder`), as in a struct held by value (`OverlapMatters`).
- Pages of a list add up to the matching rows if every page ends between rows that the ordering tells apart, and
  otherwise need not: with ties, or without an ordering, a row may be returned twice and another one never
  (`PagesCoverTheCount`, `UndecidedPagesFail`, `RowRepeated`).
- An update stays within the requested row exactly if its mapper keeps the key, or changes nothing under the other key
  (`UpdateNeedsKey`, `OtherRowOverwritten`).

## Hypotheses

- Types and schemas are finite, closed descriptor graphs (`World.Closed`); they may be cyclic.
- JSON names of update input fields contain no dots (`InputTypes.DotFree`); embedded input structs are exported
  (`EmbedsExported`).
- JSON keys of a struct's visible fields are distinct where one field is singled out (`OwnKey`, `Alone`).
- In a schema, relations have fields of their own, distinct from each other and from the columns (`Sound`);
  for automatic query fields, no relation's field lies on the way to a column (`AutomaticAgreesWithExplicit`).
- `unicode.SimpleFold` moves every character around a finite cycle, with the known ASCII cycles (`Unicode`).
- Scopes on lookups do nothing but add WHERE conditions of their own (`Restricts`), which the package
  documentation demands of force filters. The same is asked of a list's trusted code where `List` says which rows it
  returns (`Plain`); the rest of its contract, and `RowsAndCountAgree`, do without.
- A database sorts a result by the ORDER BY, whose keys each compare all rows transitively (`Compares`, `Arranges`), and
  may arrange what that leaves open differently in every execution. Joined relations are to-one (`ToOne`); those
  joined only for ordering are ignored by trusted conditions (`Indifferent`) and not named like the base table.
- For the frame of a mutation, mappers keep the primary key (`KeepsKey`).

## Model

| member | source | states |
|---|---|---|
| TagSyntax.ParseSqlhTagDirective | entity_tags.go:185-219 | the loop over phases trims and checks each one exactly as specified |
| TagSyntax.ParseSqlhTagValues | entity_tags.go:158-183 | the loop over directives, with its duplicate check, computes the specified parse |
| TagSyntax.ParseFindsMeaning | entity_tags.go:158-219 | trimming before or after cutting gives the same directive |
| TagSyntax.PrintParse | entity_tags.go:158-219 | any valid directive list, with any white space around tokens, parses to itself |
| TagSyntax.ParsePrint | entity_tags.go:158-219 | every accepted tag is a valid directive list written with some spacing |
| TagSyntax.AcceptsExactlyPrinted | entity_tags.go:158-219 | the accepted tags are exactly the printed forms of valid lists with at most one field directive |
| TagSyntax.Normalizes | entity_tags.go:158-219 | printing what was parsed without padding parses to the same list: one pass is a fixed point |
| EntityTags.EntityBuilderTags.ApplySqlhTagPhase | entity_tags.go:221-262 | appends the path to exactly the list of the phase, or fails and appends nothing |
| EntityTags.EntityBuilderTags.ApplyDirectives | entity_tags.go:90-110 | processes directives in order up to the first error, keeping what was appended |
| EntityTags.Collector.CollectEntityBuilderTags | entity_tags.go:65-79 | appends what the specified walk emits, ends with its error, and restores the visited set in every case |
| EntityTags.Collector.CollectEntityBuilderTagField | entity_tags.go:81-156 | the same for one field: embedded host, relation, or plain |
| EntityTags.Collector.VisitEntityBuilderType | entity_tags.go:268-277 | a type on the stack is skipped; otherwise it is walked and taken off the stack again |
| EntityTags.WalkVisits | entity_tags.go:65-156 | a walk without error has seen every chain of fields that enters no type twice |
| EntityTags.WalkFrom | entity_tags.go:65-156 | everything appended comes from the end of such a chain |
| EntityTags.WalkStops | entity_tags.go:65-156 | a walk that fails does so at a field in error at the end of such a chain |
| EntityTags.LeadsWhereNext | entity_tags.go:115-156 | the walk goes on into a struct exactly where the entity graph leads on, keeping the index below the last relation and the names passed |
| EntityTags.TrailIsSimple | entity_tags.go:65-156 | every trail is followed by the walk, which knows its names and index at its end |
| EntityTags.SimpleIsTrail | entity_tags.go:65-156 | and every chain that the walk follows is such a trail |
| EntityTags.FieldEmissionsExact | entity_tags.go:81-113 | a field contributes its path to a list exactly if its tag names that phase |
| EntityTags.FieldFailureExact | entity_tags.go:81-156 | a field is in error exactly for a tag on an embedded field, a malformed tag, a misplaced or unsupported directive, or an unresolved related schema |
| EntityTags.WalkIsClean | entity_tags.go:33-63 | the walk succeeds exactly if no trail, a way of fields from the entity type that enters no struct type twice, ends at a field in error; trails and errors are stated on types, schemas and tags alone |
| EntityTags.WalkCollects | entity_tags.go:33-63 | on success a path is collected for a phase exactly if a trail ends at a field tagged for it and the path joins the names of the trail's fields that are not embedded |
| EntityTags.ParseEntityBuilderTags | entity_tags.go:33-63 | success exactly if the type is a struct and no trail ends at a field in error; then each of the seven lists is strictly increasing and holds exactly the paths of the fields tagged for its directive and phase |
| Text.UniqueSortedSpec | entity_tags.go:287-296 | sorting and compacting gives a strictly increasing list of exactly the given strings |
| Text.LessAtFirstDifference | entity_tags.go:287-296 | the sort compares strings at the first place where they differ |
| Json.MergePresent | patch.go:114-143 | a present value that is not null is merged into the target's value at its path |
| Json.MergeNull | patch.go:114-143 | a present null removes its path |
| Json.MergeAbsent | patch.go:114-143 | an absent path keeps the target's value below an object and is absent below anything else |
| Json.MergeIdempotent | patch.go:114-143 | merging a document twice equals merging it once |
| PatchDocument.PatchDocument.Find | patch.go:198-223 | the segment walk finds the value at a dotted path |
| PatchDocument.OracleAgreesWithMerge | patch.go:76-112 | what the oracle says of a path is what the merge does there, for every target, document and path |
| PatchDocument.OracleIsExact | patch.go:198-202 | the oracle reports what the document holds unless the first segment is empty and something is there |
| PatchDocument.EmptyKeyIsNotPresent | patch.go:198-202 | the empty key is merged but not present |
| PatchDocument.PresentPrefixes | patch.go:204-220 | presence is prefix-closed, and only objects have anything below them |
| PatchInput.ResetPatchFields | patch.go:171-195 | the loop over fields resets each as specified |
| PatchInput.ResetPatchInput | patch.go:150-196 | the reset of a pointer, map or struct |
| PatchInput.CompleteInput.MergeInto | patch.go:117-143 | the input becomes the merged document decoded over the reset input, or after a type error what could be filled in; success exactly without one |
| PatchInput.FilledIsDecoded | patch.go:137-140 | what unmarshalling fills in is the decoded value if nothing is mistyped |
| PatchInput.ResetThenDecode | patch.go:137-196 | decoding over reset fields fails exactly when decoding fresh fails; otherwise the result is the fresh value in what JSON sees and the old input in every field it does not see, through any embedding, exactly when there is no residue |
| PatchInput.MergeRefinesFresh | patch.go:117-143 | the same for a whole merge into a struct; the residue is told from the merged document and the input before |
| PatchInput.MergeRefinesFreshMap | patch.go:162-166 | on a map no entry survives that the merge removed |
| PatchInput.ResidueExists | patch.go:183-191 | a null for an embedded pointer tagged with its own lower-camel name leaves it set |
| PatchInput.UntaggedResidueExists | patch.go:183-187 | a null for the only field of an untagged embedded pointer leaves the pointer set, which JSON sees |
| PatchInput.HiddenFieldLost | patch.go:186-193 | an embedded struct under another key loses its hidden field, whatever the document says |
| PatchInput.UnexportedEmbedIsNotReset | patch.go:175-177 | promoted fields of an unexported embedded struct survive a null |
| PatchInput.EqualMergesEndEqual | patch.go:117-143 | two inputs with equal hidden fields, merged to the same document, end equal exactly if their embedded pointers are alike where the document does not decide |
| PatchInput.EqualMergesEndDifferent | patch.go:183-187 | a nil and a set embedded pointer stay nil and set after merges to the same document |
| PatchInput.FieldAfterMerge | patch.go:117-143 | an omitted field sees only its own value, a null makes it zero, anything else is merged into its value |
| PatchInput.RoundTrip | patch.go:127-140 | representable values survive marshal and unmarshal |
| PatchInput.OmittedFieldUnchanged | patch.go:114-116 | an omitted field keeps its value |
| PatchInput.EncodedAtLocation | patch.go:127-130 | a promoted field is marshalled below the keys of the embedded structs on the way to it |
| PatchAssociations.DerivedPathLocates | patch.go:273-307 | the derived path is where the field is marshalled to, exactly if no embedded struct on the way has a key |
| PatchAssociations.KeyedEmbeddingMislocates | patch.go:291-303 | a field promoted from a keyed embedded struct is not at its derived path |
| PatchAssociations.PatchJSONPath | patch.go:273-289 | the segment loop derives exactly the JSON path that the segments of the relation spell, if they spell one |
| PatchAssociations.PathIsExact | patch.go:273-345 | a relation path has a JSON path exactly if each segment names a field of the struct type reached so far, and it joins the JSON names of these fields |
| PatchAssociations.BuildPatchAssociationFields | patch.go:225-258 | success exactly if overrides name synced relations, every other one has a path and no path is claimed twice; then the map is the overrides plus one derived path for each other relation |
| PatchAssociations.FieldsCoverSyncPaths | patch.go:225-258 | the relations with a path are exactly the synced ones |
| PatchAssociations.FieldsDetermined | patch.go:225-258 | the map does not depend on the order of overrides or sync paths |
| PatchAssociations.BuildPatchAssociationTriggers | patch.go:260-271 | success exactly if every trigger names a synced relation, and then the triggers themselves |
| PatchAssociations.SelectPatchAssociationPaths | patch.go:371-382 | exactly the relations some path of which is present in the original document, sorted |
| PatchAssociations.ClearedAntichain | patch.go:388-414 | with derived paths no cleared relation lies below another |
| PatchNormalize.ClearPatchRelationValue | patch.go:422-469 | the recursion through pointers, slices and relations computes the specified clear |
| PatchNormalize.NormalizePatchAssociationNulls | patch.go:388-414 | the loop over selected relations performs the document's clears in order, for whichever JSON path it finds of each relation, and succeeds exactly if they all do |
| PatchNormalize.ClearOneMore | patch.go:422-496 | one more clear after the others equals having it among them, if none is above it |
| PatchNormalize.SequenceIsSimultaneous | patch.go:388-414 | clearing one after the other equals clearing all at once |
| PatchNormalize.SequenceOk | patch.go:388-414 | the sequence succeeds exactly if each clear succeeds on the original entity |
| PatchNormalize.OrderDoesNotMatter | patch.go:397-411 | any order of the clears gives the same outcome and the same entity |
| PatchNormalize.NormalizeIdempotent | patch.go:388-414 | normalizing again changes nothing |
| PatchNormalize.OverlapOrder | patch.go:397-469 | of two overlapping clears in the code's order the lower one meets emptied fields only; the other order is the upper clear alone; they differ exactly if the lower clear changes an emptied field |
| PatchNormalize.NothingBelowNil | patch.go:483-496 | below an emptied slice, or a field whose zero is nil, the lower clear succeeds and changes nothing |
| PatchNormalize.UpperClearsFirst | resource.go:305-308 | in a sorted selection no clear is performed after one below it |
| PatchNormalize.OverridesOverlap | patch.go:225-258 | an override configuration and a document that ask for overlapping clears |
| PatchNormalize.OverlapMatters | patch.go:458-469 | such clears of a struct held by value end differently in the two orders |
| PatchNormalize.ParentsNormalized | patch.go:428-456 | every struct reached afterwards is the one reached before, normalized by exactly the clears below its path |
| PatchNormalize.ParentsKept | patch.go:428-456 | every struct reached before by such a path is still reached, normalized |
| PatchNormalize.ClearedOnEveryParent | patch.go:458-496 | on every parent reached a cleared relation holds an empty slice, or its type's zero if it is no slice, and for a null belongs-to the field of the foreign key's column holds its zero |
| PatchNormalize.ClearSucceeds | patch.go:422-469 | a clear succeeds exactly if on every parent on the way the next relation is known and its field, and the key field to empty, can be set |
| PatchNormalize.DocumentClears | patch.go:388-496 | after a successful normalization, whatever the document gives as null or [] for a relation is empty on every parent reached, and a null belongs-to has its key at zero |
| PatchNormalize.DocumentKeeps | patch.go:388-496 | and every other field of such a parent is kept: one that is neither a relation so given or on the way to one, nor the key of a null belongs-to; so [] keeps the key |
| PatchNormalize.OtherFieldsKept | patch.go:422-469 | a field no clear ends at or goes below is kept |
| PatchNormalize.ClearsFormAntichain | patch.go:388-414 | the clears of a document with derived paths never overlap, and no relation has two paths |
| PatchNormalize.NormalizationIsExact | patch.go:388-414 | for such a document normalization is exactly the simultaneous clear, whichever JSON paths are found |
| PatchWrite.OverlapIsComparability | builders.go:112-120 | the string test holds exactly if one segment list is a prefix of the other |
| PatchWrite.PatchAssociationPathSelected | builders.go:112-120 | the search finds exactly whether some selected path is comparable |
| PatchWrite.BuildPatchWrite | builders.go:84-110 | preloads, omits exactly the uncomparable automatic paths, synchronizes the selected ones |
| PatchWrite.OmittedExactly | builders.go:97-105 | a path is omitted exactly if it is automatic and comparable with no synchronized path |
| FieldNames.LeastOfCycle | query_fields.go:174-180 | the loop around a fold cycle ends with its least character |
| FieldNames.FoldOfLowerAscii | query_fields.go:162-172 | the ASCII fast path agrees with the cycle minimum |
| FieldNames.FoldDecides | query_fields.go:159-187 | folded names are equal exactly if the names are simple-fold equal |
| FieldNames.FoldQueryFieldName | query_fields.go:161-187 | both paths of the loop compute the fold |
| QueryFields.QueryGoFieldIndex | query_fields.go:256-272 | the loop over path parts computes the specified index and type |
| QueryFields.QueryFieldPath | query_fields.go:133-142 | the loop over an index prints the field names along it |
| QueryFields.GoPathQualified | query_fields.go:205-254 | a resolved path is a column qualified by the base table or by its to-one relation |
| QueryFields.GoPathResolves | query_fields.go:205-254 | a path resolves to a column exactly if its parts lead to a comparable field whose first column this is, in the entity or, behind one joinable to-one relation, in the related entity; otherwise it is refused |
| QueryFields.RelationPathResolves | query_fields.go:221-254 | a relation followed by the path printed for a related field resolves to the first column stored there, qualified by the relation, and is refused if there is none |
| GoModel.ColumnAtIndexIsFirst | query_fields.go:94-117 | the column of a field is the first one with exactly its index, if the type is comparable |
| QueryFields.AutomaticQueryFieldName | query_fields.go:119-131 | the first field directive of the tag, or the Go name |
| QueryFields.AutomaticFieldIs | query_fields.go:60-131 | a visible field is offered under its first field directive or its Go name, unless hidden or not mapped, and is faulty exactly as stated |
| QueryFields.FieldsOffered | query_fields.go:60-90 | the loop over visible fields registers exactly what they offer |
| QueryFields.QueryFieldResolver.Add | query_fields.go:144-157 | refuses exactly names fold-equal to a registered one, and keeps the index exact |
| QueryFields.QueryFieldResolver.LookupIsScan | query_fields.go:274-288 | a lookup by folded key finds what a scan with case-insensitive equality finds |
| QueryFields.NewAutomaticQueryFieldResolver | query_fields.go:60-90 | success exactly if no visible field is faulty and the names offered are fold-distinct; then exactly the fields offered, under their public names |
| QueryFields.NewQueryFieldResolver | query_fields.go:38-58 | success exactly if every configured path selects a column and the names are fold-distinct, and then exactly these names with the columns that their paths select |
| QueryFields.PathLeadsBack | query_fields.go:133-142 | the printed path of an index leads back to it |
| QueryFields.AutomaticAgreesWithExplicit | query_fields.go:205-219 | the path printed for an automatic field, given explicitly, resolves to the same column without a relation |
| QueryFilters.ResolvedQuery.ConvertFilter | query_fields.go:302-341 | the recursion with its appended joins computes the specified conversion |
| QueryFilters.AcceptsWellFormed | query_fields.go:302-341 | a filter is accepted exactly if it is well-formed |
| QueryFilters.ConversionPreservesMeaning | query_fields.go:302-341 | the converted filter is true, false or unknown on a row exactly as the public filter is on the row seen through the mapping |
| QueryFilters.ConversionIsScoped | query_fields.go:328-349 | the joins grow by exactly the relations named, without repetition, and every leaf column is in scope |
| QueryFilters.Resolve | query_fields.go:274-300 | success exactly for accepted requests, with the keys and joins of filter and order |
| QueryFilters.QueriesAreScoped | query_fields.go:274-369 | every WHERE and ORDER BY column belongs to the base table or a join, and the two join lists are disjoint, duplicate-free and exactly the relations used |
| QueryFilters.ApplyFilters | query_fields.go:351-360 | default joins and at most one condition are added |
| QueryFilters.ApplyOrder | query_fields.go:362-369 | default joins and the ordering are added |
| Builders.ApplyScopes | resource.go:532-545 | scopes are applied in order up to the first error, nil ones skipped |
| Builders.ApplyModifiers | builders.go:9-19 | builders are applied in order, nil ones skipped |
| ListPlan.ApplyForceFilters | filters.go:193-201 | every force filter is applied, in order |
| ListPlan.ValidateQueryModifiers | filters.go:131-139 | accepts exactly if every direction is accepted |
| ListPlan.QueryPlan.Prepare | resource.go:373-396 | rows and count start from the same builder: tag preloads, then visibility, force, public and trusted filters; if these only add conditions, it matches exactly what all of them and the public filter allow |
| ListPlan.ScopedMatches | resource.go:373-380 | the prepared scope matches exactly what visibility, every force filter, the trusted filters and the public condition allow |
| ListPlan.WantedMatches | resource.go:373-380 | a base row matches it exactly if these allow the row, seen with its related rows, and the public filter is true on its public fields |
| ListPlan.ListedRows | resource.go:348-450 | before paging the row query has each wanted row as often as the table, sorted by the order keys, and the count is their number |
| ListPlan.PageOfRequest | filters.go:142-152 | an accepted page returns the database's rows from the offset on, as many as there are but at most the limit |
| ListPlan.List | resource.go:348-423 | an accepted request returns the mapped rows of the row query and the count of the shared scope; if trusted code only adds conditions, the total counts the wanted rows and the results are the requested page of them as ordered |
| ListPlan.RowsExtendCount | resource.go:381-396 | the row query is the count query, as trusted row modifiers leave it, plus order joins, ordering and page only |
| ListPlan.OrderJoinsKeepBases | query_fields.go:362-369 | joins needed only for ordering change no matching base row |
| ListPlan.FilterIgnoresOrderJoins | query_fields.go:294-296 | the public filter does not look at joins needed only for ordering |
| ListPlan.PagesCoverTheCount | resource.go:346-450 | if each page ends between rows the ordering tells apart, consecutive pages of any positive size, each from an execution of its own, return every matching row as often as it matches, and the total is their number |
| ListPlan.UndecidedPagesFail | resource.go:346-450 | if some page ends between different rows that tie, a database with the same rows that sorts as asked returns pages that do not add up to them |
| ListPlan.RowRepeated | filters.go:142-152 | two pages of one row each, without an ordering, may both be the first row |
| ListPlan.DistinguishedBoundaries | query_fields.go:362-369 | an ordering that tells all rows apart decides every page's end |
| ListPlan.MatchingIsSelection | resource.go:397-399 | joined to at most one row by each relation, the table's rows match once each, exactly if they satisfy every condition when seen with the rows joined to them |
| ListPlan.RowsAndCountAgree | resource.go:346-450 | for an accepted request, pages so decided return every matching row once, and the total is their number, if trusted code does not page and its conditions are indifferent to order joins |
| Resource.Repository.Query | resource.go:504-506 | exactly the rows satisfying every condition |
| Resource.LookupMatchesAdmitted | resource.go:525-563 | the prepared lookup matches exactly the row with the key that satisfies visibility and all force filters |
| Resource.Lookup | resource.go:480-515 | one unlimited query, with the preloads; returns the admitted row, and not-found exactly if there is none |
| Resource.UpdateEntity | resource.go:174-206 | after one locking lookup, the mapped entity of an admitted row is stored under its key and written once with preloads and sync paths, or nothing is; success exactly if it was written and mapped to an output |
| Resource.DeleteEntity | resource.go:452-478 | succeeds exactly for an admitted row when no call fails, and deletes exactly it; otherwise nothing is written |
| Resource.Patch | resource.go:249-323 | a change is one write, to an admitted row, of what the mapper makes of the merged input, with the clears applied; each field the document gives, nulls or omits is in that input as merge patch demands; nothing for an empty document; and exactly when it succeeds |
| Resource.SyncedIsConfigured | resource.go:305-307 | every synchronized relation is configured with sync:update |
| Resource.UnomittedIsNamed | resource.go:305-312 | an automatic path is left un-omitted exactly if it is comparable with a relation the document names |
| Resource.UpdateNeedsKey | resource.go:174-206 | an update stays in the frame exactly if the mapper keeps the key or changes nothing under the other one |
| Resource.UpdateStores | resource.go:174-206 | in a run an update stores the mapped entity itself, once, exactly if the row is admitted, its key exists and no call fails |
| Resource.DeleteRemoves | resource.go:452-478 | in a run a delete removes exactly the admitted row |
| Resource.PatchStores | resource.go:285-323 | in a run a PATCH that changes anything stores what the mapper makes of the merged input, cleared as the document asks, with its omit and sync sets |
| Resource.OtherRowOverwritten | resource.go:195-198 | a mapper that changes the key writes to a row the request never looked up |
| Resource.Serve | resource.go:174-323 | each operation leaves of the table what the step of a run allows |
| Resource.RequestIsFramed | resource.go:174-323 | an update, patch or delete whose mapper keeps the key changes at most the requested row, and only if it was admitted |
| Resource.ChangesAreAdmitted | resource.go:174-206 | over any run of such requests, with any failing calls, a changed row was changed by a request for its key that it satisfied at lookup time |
| Resource.OthersUntouched | resource.go:174-206 | rows no request asked for, or never admitted, are unchanged |
| Transaction.Run | transaction.go:61-111 | the runner with its deferred handler does what the specification says for all outcomes of begin, operation, commit and rollback |
| Transaction.RunValue | transaction.go:115-135 | the output leaves only with a nil error; an error carries the zero value |
| Transaction.SuccessIffCommitted | transaction.go:61-111 | success is returned exactly if Commit was called and returned nil |
| Transaction.DurableIsComposition | transaction.go:61-111 | durable state is the composition of exactly the requests whose commit took effect |
| Transaction.DurableIsSuccesses | transaction.go:61-111 | without undecided commits those are exactly the requests told success |
| Transaction.NoRollbackAfterCommit | transaction.go:74-93 | in no history does a Rollback follow a Commit of the same transaction that returned |
| Transaction.RolledBackUnlessCommitted | transaction.go:75-93 | when an error of a begun transaction is returned, it was rolled back exactly if the error is the operation's own, that is, if Commit was not called |
| Transaction.FailedCommitIsNotRolledBack | transaction.go:75-107 | a failed Commit is reported and not rolled back |
| Transaction.FailureIsReported | transaction.go:74-107 | an operation's error is returned itself exactly if Rollback returns nil, and wrapped with Rollback's error otherwise; a panic goes on likewise |
| Transaction.DriverFailureIsReported | transaction.go:69-107 | errors and panics of Begin and Commit are reported as such |
| Transaction.FinishedUnlessExited | transaction.go:75-93 | a begun transaction is finished exactly if its operation did not end the goroutine |
| Transaction.EveryBegunIsFinished | transaction.go:75-93 | every begun transaction of a history is finished exactly if no operation ends its goroutine on the state it finds |
| Transaction.ExitLeavesTransactionOpen | transaction.go:75-93 | an operation that ends its goroutine leaves its transaction open |

## Left out

- HTTP routing, handler factories, options, configuration, custom operations, identity lookups, delete strategies,
  and custom query and count callbacks: delegation to application code.
- Create and read operations, and the tag builders for create, query, read and delete: straight-line code.
- Bytes of JSON documents, `,omitempty` and other tag options, custom marshalers, case-insensitive keys, and the
  dominance rules for fields that share a key: JSON is a tree and tags are a key, "-" or nothing.
- Promotion of embedded fields in `reflect.FieldByName` and `reflect.VisibleFields` is a table in the type
  descriptors; only direct fields are looked up by an algorithm of the model.
- SQLR, SQLC and the SQL database: builders record calls, a SELECT is filtering of joined tuples, and what SQLC
  accepts as an expression or direction is a parameter. Hydration of to-many joins is not modelled.
- In-place mutation behind pointers: inputs and entities are value trees held by one object, so aliasing between
  pointers is not captured. The loops of the reset and of the clears run on those trees.
- PatchNormalize.NormalizePatchAssociationNulls: says nothing about the entity after an error; PATCH discards it then.
- ListPlan.List: with trusted code that does more than add conditions, such as explicit joins or row modifiers, it says
  only which queries are made; that code is then part of the queries.
- PatchAssociations.DerivedPathLocates: speaks of one segment; a path of several is derived struct by struct.
- Resource.Patch: association tables are not modelled; the recorded omit and sync sets are what the writer is told.
- Transaction.Run: transactions run one after the other; a commit that fails or panics may or may not have reached
  storage, which is a choice of the driver.
- Primary keys are strings, and error values carry no message text.
