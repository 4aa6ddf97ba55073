# Verified models of the tender workbench and document pipeline

This project models the parts of the repository whose correctness rests on more
than one function, and proves what they promise.

- **Word draft save protocol** (`DraftModel`, `DraftInvariant`, `DraftSteps`,
  `DraftRuns`, `DraftStore`, `DraftRequests`). Each database transaction is one
  atomic step on the tables of versions, heads, sessions, saves and recoveries.
  `DraftModel` specifies a transaction as a function from tables to tables and a
  reply, and `DraftEffects` says field by field what it writes and when it succeeds;
  `DraftStore` is the same transaction as row updates on a class, proved
  equal; `DraftRuns` proves safety over whole runs. Steps may come in any order
  with any arguments, so every interleaving of requests is covered. The import and
  the callbacks of statuses 2, 6 and 7 read first, then wait for other services,
  and only then open their transaction; they are in `DraftRequests`, with the reads
  seeing any earlier states.
- **Source contract** (`Rendered`, `Utf8`, `SourceContract`, `PageManifest`,
  `OutputInventory`, `OutputExample`). Byte spans under literal replacement, unit
  identities, the page manifest as a partition, and the PDF inventory.
- **Table grids** (`TableGrid`, `GridDigest`). The tiling checker equals an exact
  cover, and the digest framing is uniquely decodable.
- **DocReader transport** (`DocStream`, `A1`). The streamed read agrees with the
  unary one, also where the client falls back to it; spreadsheet addresses
  round-trip.
- **Software SHA-256** (`Sha256`), against FIPS 180-4, with JavaScript's numbers;
  `ShaConstants` derives the constants from the primes, and `ShaWords` says bit by
  bit what the word functions do.
- **Vector index** (`Embedding`, `VectorIndex`). Batches stay aligned with their
  inputs, and a fence keeps published vectors in step with their source.
- **Trace tree** (`Trace`) and **Base64** (`Base64`).

`Wrappers`, `Collections`, `Text`, `Bytes` and `Bits` are shared helpers. `dafny verify
dfyconfig.toml` checks everything.

Results that do not go the way the program's comments suggest:

- `import_generated` compares digests in its first lookup only. A duplicate found
  inside the transaction is returned without that comparison
  (`crates/api/src/tender_editor.rs:251-253`), so an import can be answered with
  other content exactly when another import of the execution commits in between
  (`DraftRequests.ImportAnswersItsContentIff`, `DraftRequests.ImportRaceExample`).
- An exact replay of a callback can be refused although its effect is stored. The
  lookup comes before the session is verified, so a replay that reads a save before
  it is published, or a session before its final file is stored, and verifies the
  session after it was closed, is answered Forbidden. The exact conditions are
  `DraftRequests.SaveCallbackReplay` and `DraftRequests.FinalCallbackReplay`; the
  failing runs are `DraftRequests.LateReplayIsRefused` and
  `DraftRequests.LateFinalReplayIsRefused`.
- The script stores only the low 32 bits of the bit length. Its padding is that of
  the standard exactly below 2^29 bytes (`Sha256.PaddingIsStandardIff`), and below
  that size its result is SHA-256 (`Sha256.Sha256HexSync`).
- The two DocReader calls name an image whose path has no basename at random, each
  on its own. A successful read gives the same answer on both exactly when every
  image has a basename or happens to get the same random name
  (`DocStream.StreamEqualsUnaryIff`).
- Several checks never decide: the covered-slot and overflow errors of the grid
  checker, the overflow error of the span remapping, the missing-index error of
  the batch parser, and the bounds in `from_proto_range`.

Modelling choices that hold throughout: a new random id is any id chosen by the
caller, and a collision with a stored key is a storage error; hash functions are
arbitrary functions, and where a result needs no collision it says so for exactly
the texts compared; text that the program handles as bytes is a sequence of bytes.

## Model

| member | source | states |
|---|---|---|
| `DraftRuns.RunSafe` | crates/api/src/tender_editor.rs:1206-1255 | In every state of every run, whatever the interleaving of the ten transactions, the whole invariant of versions, heads, sessions, saves, recoveries and lineages holds |
| `DraftRuns.ReachableSafe` | crates/api/src/tender_editor.rs:866-940 | The same for every reachable state |
| `DraftRuns.RunExtends` | crates/api/src/tender_editor.rs:1227-1252 | History only grows along a run: versions and recoveries never change, sessions stay closed once closed, finished saves stay as they are |
| `DraftRuns.OnePendingSave` | crates/api/src/tender_editor.rs:901-940 | A save is Pending if and only if it is its project's pending save; its session then holds the head and its parent id and hash are the head version's; at most one save of a project is pending |
| `DraftRuns.OneEditor` | crates/api/src/tender_editor.rs:666-695 | The session of a head row is exactly the one unclosed edit session of the project, in both directions |
| `DraftRuns.ViewSessionsLeaveHeads` | crates/api/src/tender_editor.rs:683-696 | Opening a view session, and every request carrying the key of one, leaves every head row unchanged |
| `DraftRuns.OnlyPublishMovesHead` | crates/api/src/tender_editor.rs:1229-1252 | While a session holds a head, only publishing that session's pending save moves it, to a manual child of the old head version; a recovered final file never moves it |
| `DraftRuns.NoLostUpdate` | crates/api/src/tender_editor.rs:1227-1252 | Between any two states of a run in which one session holds the head, the chain from the session's base version was only extended, by one version per Saved save in publish order with no save twice, and it ends at the head both times |
| `DraftRuns.LineagePrefix` | crates/api/src/tender_editor.rs:1237-1252 | Two lineages of one session in an earlier and a later state agree on their common part |
| `DraftRuns.ExactlyOncePublication` | crates/api/src/tender_editor.rs:1217-1252 | Manual versions number exactly the Saved saves and recovered versions exactly the recoveries; the result version is injective, present exactly for Saved saves, and a child of the save's parent |
| `DraftRuns.FinishedSavesAreFinal` | crates/api/src/tender_editor.rs:951-966 | Saved and Failed are absorbing: a finished save row is the same in every later state |
| `DraftRuns.HistoryIsRooted` | crates/api/src/tender_editor.rs:1180-1188 | Every parent chain ends at the single generated version of its round and execution |
| `DraftRuns.Root` | crates/api/src/tender_editor.rs:1246-1248 | Following parents terminates, at a parentless generated version of the same project, round and execution |
| `DraftRuns.RevisionsAreContiguous` | crates/api/src/tender_editor.rs:1238-1248 | The revisions of a project with n versions are exactly 1 to n |
| `DraftRuns.EndedIsQuiet` | crates/api/src/tender_routes.rs:357-382 | An Ended project has no active editor, no unclosed edit session and no pending save |
| `DraftRuns.EndedHeadIsFrozen` | crates/api/src/tender_routes.rs:74-96 | While a project stays Ended its existing head row never changes |
| `DraftRuns.SavedRequestReplays` | crates/api/src/tender_editor.rs:878-900 | In every state after a save is Saved, Ended or not, the exact request is answered with the same save id and no dispatch, another content is refused, and no row changes |
| `DraftRuns.PublishedContentIsKept` | crates/api/src/tender_editor.rs:1246-1252 | From the step that publishes a save, in every later state the save is Saved with that callback's digest and its result version, whose content is the delivered file's digest |
| `DraftSteps.StepKeeps` | crates/api/src/tender_editor.rs:866-966 | Every transaction with any arguments keeps the invariant and only extends history |
| `DraftSteps.ImportKeeps` | crates/api/src/tender_editor.rs:249-264 | Importing a generated file keeps the invariant: revisions stay contiguous and one generated version per execution and round |
| `DraftSteps.SelectKeeps` | crates/api/src/tender_editor.rs:419-436 | Selecting another version keeps the invariant, because no editor and no pending save is there |
| `DraftSteps.OpenKeeps` | crates/api/src/tender_editor.rs:656-698 | Opening an editor keeps the invariant and starts a lineage at the base version |
| `DraftSteps.CloseKeeps` | crates/api/src/tender_editor.rs:765-776 | Closing keeps the invariant |
| `DraftSteps.PrepareSaveKeeps` | crates/api/src/tender_editor.rs:873-940 | Preparing a save keeps the invariant |
| `DraftSteps.RecordFailureKeeps` | crates/api/src/tender_editor.rs:951-966 | Recording a failure without the project lock, for an arbitrary session and save, keeps the invariant |
| `DraftSteps.DetachKeeps` | crates/api/src/tender_editor.rs:1055-1065 | Callback status 4 keeps the invariant |
| `DraftSteps.PublishKeeps` | crates/api/src/tender_editor.rs:1214-1255 | Publishing a save keeps the invariant and appends one version to the session's lineage |
| `DraftSteps.RecoverKeeps` | crates/api/src/tender_editor.rs:1175-1200 | Storing a final file keeps the invariant |
| `DraftSteps.PatchKeeps` | crates/api/src/tender_routes.rs:357-382 | Ending and reopening a project keeps the invariant |
| `DraftEffects.ImportEffect` | crates/api/src/tender_editor.rs:249-264 | On the rows: when an import succeeds, and that a new version is generated, parentless, holds the imported content, and becomes the head exactly if there was none |
| `DraftEffects.SelectEffect` | crates/api/src/tender_editor.rs:419-436 | On the rows: selecting succeeds exactly in an open project with no editor, no pending save and a version of its own, which then is the head |
| `DraftEffects.OpenEffect` | crates/api/src/tender_editor.rs:656-698 | On the rows: when a new opening succeeds, every field of the stored session, and that an edit session takes the head while a view session changes no other row |
| `DraftEffects.ReopenEffect` | crates/api/src/tender_editor.rs:658-664 | A repeated opening changes nothing and answers the stored session exactly if the request is the same and the session unclosed |
| `DraftEffects.CloseEffect` | crates/api/src/tender_editor.rs:765-776 | On the rows: closing is refused exactly while the session waits for a save; otherwise the session, of either mode, is closed and a head it held is free |
| `DraftEffects.PrepareSaveEffect` | crates/api/src/tender_editor.rs:901-940 | On the rows: a new save is accepted exactly on the head version by id and hash for the session that holds it with nothing pending; every field stored, and the head waits for it |
| `DraftEffects.RepeatedSaveEffect` | crates/api/src/tender_editor.rs:876-922 | A repeated save request changes nothing: refused for other content or a failed save, answered when Saved, dispatched again when Pending exactly while its baseline holds |
| `DraftEffects.RecordFailureEffect` | crates/api/src/tender_editor.rs:951-966 | On the rows: exactly the named pending save fails with the code, and exactly the head waiting for it is freed and shows the error |
| `DraftEffects.DetachEffect` | crates/api/src/tender_editor.rs:1055-1065 | On the rows: a head held without pending save is freed, and the session is closed exactly if no head is held by it then |
| `DraftEffects.PublishEffect` | crates/api/src/tender_editor.rs:1214-1255 | On the rows: publication is accepted exactly for a Saved save with this digest or for the pending save its head waits for on an unchanged baseline; the new version holds the delivered content and is the head, and nothing else changes |
| `DraftEffects.RecoverEffect` | crates/api/src/tender_editor.rs:1175-1200 | On the rows: a final file is accepted exactly for a stored recovery with this digest or for the session holding the head; the recovered version holds the delivered content beside the head version |
| `DraftEffects.RecoverFailsPending` | crates/api/src/tender_editor.rs:1190-1193 | Storing a final file fails exactly the saves its session still waits for, and touches no other |
| `DraftEffects.PatchEffect` | crates/api/src/tender_routes.rs:357-382 | The status changes as asked except that a project with an editor or a pending save is not ended |
| `DraftStore.DraftTables.NextRevisionOf` | crates/api/src/tender_editor.rs:1238-1244 | The aggregate over the version rows is one more than the greatest revision of the project |
| `DraftStore.DraftTables.ImportGenerated` | crates/api/src/tender_editor.rs:249-264 | The row updates of the import transaction, statement by statement, give the tables and the reply of its specification; a refusal changes no row |
| `DraftStore.DraftTables.SelectVersion` | crates/api/src/tender_editor.rs:419-436 | The same for the select transaction |
| `DraftStore.DraftTables.OpenEditor` | crates/api/src/tender_editor.rs:656-698 | The same for the open transaction |
| `DraftStore.DraftTables.CloseEditor` | crates/api/src/tender_editor.rs:765-776 | The same for the close transaction |
| `DraftStore.DraftTables.PrepareSave` | crates/api/src/tender_editor.rs:873-940 | The same for the prepare transaction, with its replay and conflict paths |
| `DraftStore.DraftTables.RecordFailure` | crates/api/src/tender_editor.rs:959-965 | The same for the failure transaction |
| `DraftStore.DraftTables.Detach` | crates/api/src/tender_editor.rs:1055-1065 | The same for callback status 4 |
| `DraftStore.DraftTables.PublishSave` | crates/api/src/tender_editor.rs:1214-1255 | The same for the publishing transaction; on success of a pending save the new version row holds the delivered digest, is the head, and is the save's result |
| `DraftStore.DraftTables.RecoverFinal` | crates/api/src/tender_editor.rs:1175-1200 | The same for the final-file transaction |
| `DraftStore.DraftTables.PatchProject` | crates/api/src/tender_routes.rs:357-382 | The same for the project status transaction |
| `DraftRequests.SaveCallbackIsStep` | crates/api/src/tender_editor.rs:1073-1125 | A force-save callback whose reads saw two earlier states is one protocol step of the current state or changes nothing |
| `DraftRequests.SaveCallbackIsExactlyOnce` | crates/api/src/tender_editor.rs:1073-1125 | An acknowledged force-save is Saved with this callback's digest, and if this call published it its version holds the delivered file; an acknowledged failure leaves the save finished; a refused callback changed nothing; once a save is finished no callback changes anything |
| `DraftRequests.SaveCallbackPublishes` | crates/api/src/tender_editor.rs:1073-1125 | The delivery of a pending save publishes it exactly when its session was verified open and the file fetched; the head is then a version holding that file |
| `DraftRequests.SaveCallbackFails` | crates/api/src/tender_editor.rs:1087-1093 | A reported failure of a pending save is stored with its code and shown at the head, whose version stays |
| `DraftRequests.SaveCallbackReplay` | crates/api/src/tender_editor.rs:1075-1093 | A replay for a Saved save changes nothing and is acknowledged if and only if it carries the stored digest and its lookup saw the save Saved, or saw it Pending and then found the session open and fetched the file |
| `DraftRequests.LateReplayIsRefused` | crates/api/src/tender_editor.rs:1075-1087 | From every reachable state with a pending save: if another delivery publishes it and the editor is closed after the lookup, the exact replay is Forbidden |
| `DraftRequests.FinalCallbackIsStep` | crates/api/src/tender_editor.rs:1127-1205 | A final callback is one protocol step of the current state or changes nothing |
| `DraftRequests.FinalCallbackIsExactlyOnce` | crates/api/src/tender_editor.rs:1133-1200 | An acknowledged final callback is the one recovery of its session, which is closed with no pending save; every head version stays; a refused or repeated one changes nothing |
| `DraftRequests.FinalCallbackRecovers` | crates/api/src/tender_editor.rs:1127-1205 | The final file of a session that holds the head is stored exactly when the session was verified open and the file fetched, as a recovered version holding that file |
| `DraftRequests.FinalCallbackReplay` | crates/api/src/tender_editor.rs:1133-1148 | A replay for a recovered session changes nothing and is acknowledged if and only if it carries the stored digest and its lookup saw the recovery, or the session was then still open and the file fetched |
| `DraftRequests.LateFinalReplayIsRefused` | crates/api/src/tender_editor.rs:1133-1148 | From every reachable state in which a session holds the head: if its final file is stored after the lookup, the exact replay is Forbidden |
| `DraftRequests.ImportAnswersItsContentIff` | crates/api/src/tender_editor.rs:227-278 | The import answers with the version of its execution, and with its own content if and only if no import of other content committed between the lookup and the transaction |
| `DraftRequests.ImportRaceExample` | crates/api/src/tender_editor.rs:251-253 | A run of two states, read by the lookup and by the transaction, in which an import is answered with a version of other content |
| `DraftRequests.ImportSucceeds` | crates/api/src/tender_editor.rs:227-278 | Content seen before is answered exactly if it is the same; an execution without version is imported exactly in a known project, and the new version holds the content |
| `Rendered.Shift` | crates/docparser/src/source_contract.rs:364-376 | The offset loop succeeds exactly when no match is cut, and then moves the offset by the growth of the matches that end before it; it never leaves the range of offsets |
| `Rendered.ReplaceIsSpliced` | crates/docparser/src/source_contract.rs:357-384 | Over slices only: the listed matches hold the pattern, are ordered and disjoint, meet every occurrence of the pattern, and replacement is the text with exactly them replaced |
| `Rendered.MatchesHoldPattern` | crates/docparser/src/source_contract.rs:357-360 | At every listed range the text holds the pattern |
| `Rendered.OccurrenceIsMatched` | crates/docparser/src/source_contract.rs:357-360 | Wherever the text holds the pattern a listed range covers the place |
| `Utf8.BoundaryIsBetween` | crates/docparser/src/source_contract.rs:261-264 | In the encoding of any characters an offset is a boundary exactly if it lies between two of them |
| `Utf8.MatchIsCharacters` | crates/docparser/src/source_contract.rs:357-360 | Where the bytes of one text occur in those of another, its characters occur in the other's: a match on bytes is a match of characters |
| `Rendered.ShiftIsLength` | crates/docparser/src/source_contract.rs:364-376 | The shifted offset of an uncut position is the length of the rewritten prefix, so it is never negative |
| `Rendered.ReplaceSplits` | crates/docparser/src/source_contract.rs:357-384 | Replacement distributes over a cut that no match crosses |
| `Rendered.SpanFollowsText` | crates/docparser/src/source_contract.rs:377-384 | The remapped span of the new text holds the old span's text with the same replacement applied |
| `Rendered.SpansStayOrdered` | crates/docparser/src/source_contract.rs:257-268 | After a non-empty replacement remapped spans are ordered, disjoint, non-empty and in bounds |
| `Rendered.BoundaryKept` | crates/docparser/src/source_contract.rs:261-264 | An uncut character boundary is moved to a character boundary if the replacement begins with a character |
| `Rendered.ShiftSpans` | crates/docparser/src/source_contract.rs:377-383 | One unit's spans are all remapped, or the loop fails exactly when a match cuts one; the overflow error cannot happen |
| `Rendered.RenderedSource.ReplaceRendered` | crates/docparser/src/source_contract.rs:348-388 | Success exactly when no span is cut or nothing is to do; on success text, spans and digest follow the replacement and stay ordered; on error nothing changes |
| `Rendered.ShiftUnits` | crates/docparser/src/source_contract.rs:377-383 | All units are remapped, or the loop fails exactly when a match cuts a span of one |
| `Rendered.RenderedSource.RewriteAliases` | crates/docparser/src/images.rs:101-106 | The alias loop succeeds exactly when no alias cuts a span of the text rewritten so far; every span then holds its original text with all replacements applied in order; spans stay ordered, in bounds and on character boundaries, which is what the validator demands; otherwise text and spans are those the refused alias found |
| `SourceContract.CheckSpans` | crates/docparser/src/source_contract.rs:257-268 | The running end accepts exactly the ordered, disjoint, non-empty, in-bounds spans on character boundaries |
| `SourceContract.PageStands` | crates/docparser/src/source_contract.rs:185-192 | The physical page is the page of a page locator, of a page table, or the one an image names, and there is none otherwise |
| `SourceContract.LocatorEqualsItself` | crates/docparser/src/source_contract.rs:252-256 | A locator compares equal to itself exactly if none of its coordinates is NaN, and to nothing else |
| `SourceContract.CheckNames` | crates/docparser/src/source_contract.rs:222-243 | The first condition of the unit loop: names, ordinals, kinds, digests, reasons and sections agree |
| `SourceContract.CheckHeaders` | crates/docparser/src/source_contract.rs:280-290 | Header cells pass exactly if they have one of the two roles and anchor at a cell of the unit's grid |
| `SourceContract.CheckIdentity` | crates/docparser/src/source_contract.rs:222-290 | A unit passes exactly when identity, digests, locator, spans, table and header cells agree with the native carrier |
| `SourceContract.CheckUnits` | crates/docparser/src/source_contract.rs:215-291 | The unit loop passes exactly when every unit does and all identities are distinct |
| `PageManifest.CheckPageUnits` | crates/docparser/src/source_contract.rs:304-316 | The inner loop passes exactly when the page's units are distinct and physically on it; the coverage set alone never refuses a unit |
| `PageManifest.CheckPageImages` | crates/docparser/src/source_contract.rs:317-330 | The image check passes exactly when the image list is, without repetition, the page's image units |
| `PageManifest.SizeDecidesDistinct` | crates/docparser/src/source_contract.rs:326-327 | A list has no duplicate exactly when its set is as large as the list is long |
| `PageManifest.CheckedIsPartition` | crates/docparser/src/source_contract.rs:332-334 | Given the page loop, the count of covered units holds exactly when the manifest partitions the units by physical page |
| `PageManifest.CheckPages` | crates/docparser/src/source_contract.rs:292-334 | The page check accepts exactly the manifests in which each page lists, once each, exactly the units whose locator is a page, a page table or an image naming that page, and no unit is left out |
| `PageManifest.Validate` | crates/docparser/src/source_contract.rs:199-344 | A contract is accepted exactly when header, units, partition by the locators' own pages, and page count are all right |
| `PageManifest.UnitsArePartitioned` | crates/docparser/src/source_contract.rs:298-334 | With a non-empty manifest every unit stands at exactly one place, on its physical page, and in exactly that page's image list if and only if it is an image |
| `PageManifest.ListingsAreConserved` | crates/docparser/src/source_contract.rs:332-334 | The page lists together are as long as the unit list |
| `OutputInventory.CheckImages` | crates/docparser/src/output_inventory.rs:144-156 | The collected map passes exactly when references are distinct and the receipt holds precisely the digests of the received bytes |
| `OutputInventory.CheckPdfUnit` | crates/docparser/src/output_inventory.rs:225-250 | A PDF unit passes exactly when its physical page is known, its part names that page in 32-bit arithmetic, and a whole-page image is in the receipt |
| `OutputInventory.CheckEntries` | crates/docparser/src/output_inventory.rs:181-251 | The unit loop passes exactly when keys are distinct and every entry maps its unit; it collects exactly the pages pictured whole |
| `OutputInventory.CheckPageCount` | crates/docparser/src/output_inventory.rs:252-258 | The final check holds exactly when manifest pages and pictured pages are both 0 to count - 1 |
| `OutputInventory.ValidateOutputInventory` | crates/docparser/src/output_inventory.rs:98-263 | The inventory is accepted, and returned as received, exactly when every condition of the profile holds |
| `OutputExample.Passes` | crates/docparser/src/output_inventory.rs:270-375 | An inventory exists: a PDF with a section, a table and the picture of its one page is accepted whatever its revision and whatever the hash |
| `OutputInventory.PartsNameTheirPages` | crates/docparser/src/output_inventory.rs:231-235 | In an accepted PDF every unit lies on an announced page and its part names that page counted from one, without wrap-around |
| `OutputInventory.EveryPageIsPictured` | crates/docparser/src/output_inventory.rs:225-261 | In an accepted PDF the manifest is the pages 0 to count - 1 in order, and each lists a unit whose locator is an unbounded image of that page with received bytes matching the receipt |
| `TableGrid.RectangleSize` | crates/docparser/src/table_grid.rs:38-43 | A rectangle of slots has as many slots as rows times columns |
| `TableGrid.PositiveFiniteIsWidth` | crates/docparser/src/table_grid.rs:44-51 | The bit patterns accepted as widths are those of positive finite doubles by sign, exponent and fraction |
| `TableGrid.CountDecides` | crates/docparser/src/table_grid.rs:38-43 | Given disjoint cells in bounds, the slot count equals rows times columns exactly when every slot is covered |
| `TableGrid.Occupy` | crates/docparser/src/table_grid.rs:26-36 | The inner loops fail exactly on a slot already taken, and otherwise add exactly the cell's slots |
| `TableGrid.PlaceCell` | crates/docparser/src/table_grid.rs:9-37 | One cell either extends the disjoint cover or shows that the grid does not tile |
| `TableGrid.ValidateTableGrid` | crates/docparser/src/table_grid.rs:3-53 | Accepted exactly when every cell is a proper rectangle in bounds, every slot lies in exactly one cell, and the widths are valid; the covered-slot and overflow errors cannot happen; the two outer errors occur exactly for empty grids and bad widths |
| `TableGrid.TilingIgnoresOrder` | crates/docparser/src/table_grid.rs:9-37 | The verdict does not depend on the order of the cells |
| `TableGrid.AnchorsOfTiling` | crates/docparser/src/table_grid.rs:82-94 | On an accepted grid a slot is an anchor exactly when some cell starts there, and no two cells start at one slot |
| `GridDigest.FromProtoGrid` | crates/docparser/src/table_grid.rs:55-80 | The decoded grid holds the received cells in strictly increasing anchor order and is accepted exactly when the received grid is valid |
| `GridDigest.SortKeeps` | crates/docparser/src/source_contract.rs:105-106 | Sorting permutes the cells, and distinct anchors come out strictly increasing |
| `GridDigest.IncreasingIsUnique` | crates/docparser/src/source_contract.rs:105-106 | A set of cells has one increasing order |
| `GridDigest.DigestInput` | crates/docparser/src/source_contract.rs:99-120 | The bytes fed to the hasher piece by piece are the framing |
| `GridDigest.FeedCell` | crates/docparser/src/source_contract.rs:107-113 | The updates for one cell are its framing |
| `GridDigest.HeaderLayout` | crates/docparser/src/source_contract.rs:101-106 | The framing begins with the tag, the row count, the column count and the number of cells, each in four bytes |
| `GridDigest.TagIsText` | crates/docparser/src/source_contract.rs:101-101 | The tag is the name of the framing and a zero byte |
| `GridDigest.CellLayout` | crates/docparser/src/source_contract.rs:107-113 | Row, column, both spans and the text length stand at fixed places before the text |
| `GridDigest.CellsDecode` | crates/docparser/src/source_contract.rs:107-113 | Equal framings of equally many cells are of equal cells, whatever follows |
| `GridDigest.PreimageIsExact` | crates/docparser/src/source_contract.rs:99-120 | Two valid grids with fewer than 2^32 cells have the same framing if and only if they agree on size, on the set of cells with spans and texts, and on widths, an absent list counting as empty |
| `DocStream.ReadStream` | crates/docparser/src/grpc.rs:323-391 | The receive loop, which notices a cancelled token before anything else, computes the read of its event sequence |
| `DocStream.ErrorClasses` | crates/docparser/src/grpc.rs:306-321 | A cancelled call is cancelled, six codes are transient and everything else is final |
| `DocStream.StreamFailures` | crates/docparser/src/grpc.rs:336-385 | A cancelled token, a server error, a missing metadata frame and missing images end the read with their own codes |
| `DocStream.CompleteReadStops` | crates/docparser/src/grpc.rs:343-345 | Once the announced images are there no later event is read, except a cancelled token |
| `DocStream.StreamReadIsComplete` | crates/docparser/src/grpc.rs:336-391 | Over any events, success implies that only messages were consumed, a metadata frame came, and the result has the markdown, error and decoded units of the last one, the metadata of all of them, every image received, at least as many as the last one announced, and a valid contract |
| `DocStream.ResolveImages` | services/docreader/main.py:114-163 | The unary call lists one image per dict entry in order: its reference is the path, its data the decoded bytes, its file name what follows the last slash or else the spare name |
| `DocStream.BasenameFollowsSlash` | services/docreader/main.py:149-149 | The file name is exactly what follows the last slash: it has no slash, and the path is it or ends in a slash before it |
| `DocStream.ReadDocument` | services/docreader/main.py:376-416 | The unary call answers with the content, the metadata, the units and one image per name, or with the error and nothing else |
| `DocStream.SendImages` | services/docreader/main.py:298-320 | The generator, taking each entry out of the dict, sends frames with the same fields in the same order |
| `DocStream.StreamFrames` | services/docreader/main.py:418-464 | The streaming call sends one metadata frame with the image count and then one frame per image, or one error frame |
| `DocStream.MetaThenImages` | crates/docparser/src/grpc.rs:425-450 | A metadata frame and the announced images give the client what the unary response with the same content gives |
| `DocStream.StreamRefinesUnary` | crates/docparser/src/grpc.rs:393-450 | For every parse result whose images get the same names, in particular when every path has a basename, stream and unary read give the same result or the same classified error |
| `DocStream.StreamEqualsUnaryIff` | services/docreader/main.py:149-151 | When the unary read succeeds the two answers are equal if and only if every image path is non-empty and does not end in a slash, or gets the same random name from both calls |
| `DocStream.ReadClassified` | crates/docparser/src/grpc.rs:286-299 | The client's read is that of the stream, or of the unary call exactly when the stream ends as unimplemented |
| `DocStream.FallbackRefinesUnary` | crates/docparser/src/grpc.rs:286-299 | A server with the streaming call and one without give the client the same answer or error, if the images get the same names |
| `Sha256.SignIsForgotten` | web/src/sha256.ts:15-17 | A signed 32-bit result denotes the same word as the unsigned one |
| `Sha256.SumModulo` | web/src/sha256.ts:55-55 | An exact sum followed by an unsigned shift by zero is addition modulo 2^32 |
| `Sha256.Logic.JsRotrIsRotr` | web/src/sha256.ts:15-17 | The script's rotation, with its signed intermediates, is the rotation of the word |
| `Sha256.Logic.NextWord` | web/src/sha256.ts:50-56 | One schedule word of the script is that of FIPS 180-4, section 6.2.2 |
| `Sha256.Logic.ExpandBlock` | web/src/sha256.ts:47-56 | The two loops together fill the array with the message schedule of the block |
| `Sha256.Logic.RoundStep` | web/src/sha256.ts:66-79 | One turn of the round loop is one round of the standard |
| `Sha256.Logic.CompressBlock` | web/src/sha256.ts:57-80 | The round loop computes the 64 rounds |
| `Sha256.Logic.HashBlocks` | web/src/sha256.ts:46-89 | The block loop computes the hash of all blocks |
| `Sha256.PaddedLength` | web/src/sha256.ts:27-30 | The padded length is the least multiple of 64 not below the length plus nine |
| `Sha256.AndClearsLowBits` | web/src/sha256.ts:29-29 | Masking with the complement of 63 clears the low six bits |
| `Sha256.PaddedLengthFor` | web/src/sha256.ts:27-29 | The script's length is that least multiple, and below the message length once 32 bits overflow |
| `Sha256.FillPadded` | web/src/sha256.ts:30-34 | Filling the buffer gives message, end bit, zeros and the low 32 bits of the bit length |
| `Sha256.PaddingIsStandardIff` | web/src/sha256.ts:27-34 | The script's padding is that of section 5.1.1 of FIPS 180-4 if and only if the message is shorter than 2^29 bytes |
| `Sha256.StoreDigest` | web/src/sha256.ts:91-100 | The eight stores into the output buffer give the hash words most significant byte first |
| `Sha256.Sha256HexSync` | web/src/sha256.ts:26-102 | For every message shorter than 2^29 bytes the result is SHA-256 of FIPS 180-4; a range error occurs exactly when the padded length wraps around |
| `ShaConstants.RoundConstants` | web/src/sha256.ts:1-13 | The 64 round constants are the first 32 bits of the fractional parts of the cube roots of the primes with their index |
| `ShaConstants.InitialHash` | web/src/sha256.ts:36-43 | The eight initial words are those of the square roots of the first eight primes |
| `ShaConstants.FirstPrimes` | web/src/sha256.ts:1-13 | The list those primes come from holds, up to its entry t, exactly the primes up to that entry |
| `ShaWords.RotrBits` | web/src/sha256.ts:15-17 | Bit i of the rotated word is bit i + n of the word, modulo 32 |
| `ShaWords.ChBits` | web/src/sha256.ts:67-67 | The choice takes each bit from the second or the third word as the first says |
| `ShaWords.MajBits` | web/src/sha256.ts:70-70 | Each bit of the majority is that of at least two words |
| `ShaWords.BigSigma0Bits` | web/src/sha256.ts:69-69 | Bit by bit, the exclusive or of the rotations by 2, 13 and 22 |
| `ShaWords.BigSigma1Bits` | web/src/sha256.ts:66-66 | Bit by bit, the exclusive or of the rotations by 6, 11 and 25 |
| `ShaWords.SmallSigma0Bits` | web/src/sha256.ts:51-52 | Bit by bit, the exclusive or of the rotations by 7 and 18 and the shift by 3 |
| `ShaWords.SmallSigma1Bits` | web/src/sha256.ts:53-54 | Bit by bit, the exclusive or of the rotations by 17 and 19 and the shift by 10 |
| `ShaWords.RoundSums` | web/src/sha256.ts:66-79 | Every round moves the words down and makes the first and the fifth from sums taken once modulo 2^32 |
| `ShaWords.ScheduleStarts` | web/src/sha256.ts:47-49 | The first 16 schedule words are the bytes of the block |
| `ShaWords.ScheduleRecurs` | web/src/sha256.ts:50-56 | Every later schedule word is the sum of four, taken once modulo 2^32 |
| `ShaWords.PadLayout` | web/src/sha256.ts:27-34 | The standard padding is the message, a one bit, zero bits and the bit length as a 64-bit number, in the fewest blocks |
| `ShaWords.WordRoundTrip` | web/src/sha256.ts:47-49 | A word read from four bytes is written back as those bytes |
| `ShaWords.HexRoundTrip` | web/src/sha256.ts:19-23 | The hexadecimal text has two digits per byte and reads back as the bytes |
| `Embedding.NoneMissing` | crates/knowledge/src/knowledge_index_v2.rs:352-372 | n distinct indices below n leave none out |
| `Embedding.SingleClasses` | crates/knowledge/src/knowledge_index_v2.rs:411-416 | Which single-precision bit patterns are finite and which are zero, by exponent and fraction |
| `Embedding.ValidateVector` | crates/knowledge/src/knowledge_index_v2.rs:411-421 | A vector is accepted exactly if it has the dimension, only finite components and not only zeros |
| `Embedding.StatusClasses` | crates/knowledge/src/knowledge_index_v2.rs:423-434 | A timeout, too many requests and server errors may be tried again; every other status is final |
| `Embedding.Order` | crates/knowledge/src/knowledge_index_v2.rs:352-372 | The indexed array accepts exactly a permutation of valid vectors; slot i then holds the vector tagged i |
| `Embedding.ParseBatchResponse` | crates/knowledge/src/knowledge_index_v2.rs:331-372 | Accepted exactly when the identity matches, the indices are a permutation of 0 to n - 1 and every vector is valid; output i is the vector tagged i; the missing-index error cannot happen |
| `Embedding.Batch` | crates/knowledge/src/knowledge_index_v2.rs:264-306 | One turn sends the slice of inputs as one request, with the endpoint, model and digest of the revision, the credential and the texts in order, and succeeds exactly on a good reply, whose vectors come out aligned with those texts |
| `Embedding.SendBatches` | crates/knowledge/src/knowledge_index_v2.rs:262-313 | The batch loop succeeds exactly when the request for every 64 inputs is answered well within the byte limits, and output k is the vector that the reply to request k / 64 tagged k % 64, the place of the text of input k in that request |
| `Embedding.CheckInputs` | crates/knowledge/src/knowledge_index_v2.rs:374-409 | The input bounds pass exactly when count, sizes, total, distinct chunks and digests are all right |
| `Embedding.EmbedBatch` | crates/knowledge/src/knowledge_index_v2.rs:237-314 | The call succeeds exactly when the endpoint, bounds, credential and every reply are good; output k is then the vector tagged with the place of the canonical text of input k in the request that carried it |
| `VectorIndex.SnapshotInput` | crates/knowledge/src/knowledge_index_v2.rs:686-700 | The bytes fed to the hasher are the framing |
| `VectorIndex.LineLayout` | crates/knowledge/src/knowledge_index_v2.rs:686-700 | After the revision and a line break every input is a line of 102 characters: the id, a colon, the digest and a line break |
| `VectorIndex.IdTextLayout` | crates/knowledge/src/knowledge_index_v2.rs:694-694 | A printed id is its 32 hexadecimal digits with hyphens at the four places |
| `VectorIndex.IdTextInjective` | crates/knowledge/src/knowledge_index_v2.rs:694-694 | Distinct chunk ids print differently |
| `VectorIndex.FramingIsInjective` | crates/knowledge/src/knowledge_index_v2.rs:686-700 | For revisions of one width and digests of one width two snapshots have the same framing if and only if revision and ordered chunk and digest list agree |
| `VectorIndex.AggregateIsLines` | crates/knowledge/src/knowledge_index_v2/storage.rs:11-15 | The database's string aggregate frames the same text as the program's loop |
| `VectorIndex.Freeze` | crates/knowledge/src/knowledge_index_v2.rs:584-672 | Freezing succeeds exactly for a bound, supported, canonical, bounded source, and yields its inputs and their snapshot |
| `VectorIndex.IndexTables.Publish` | crates/knowledge/src/knowledge_index_v2.rs:556-571 | Deleting and inserting row by row replaces the rows and the generation of this version only |
| `VectorIndex.IndexTables.Rebuild` | crates/knowledge/src/knowledge_index_v2.rs:469-582 | A rebuild publishes exactly when freezing, expectation, vectors and fence all hold, and otherwise leaves both tables untouched |
| `VectorIndex.RowsAreExact` | crates/knowledge/src/knowledge_index_v2.rs:518-529 | Each input has one row, built from its own digest and vector |
| `VectorIndex.FenceIsExact` | crates/knowledge/src/knowledge_index_v2.rs:530-555 | Unless the hash collides on the two reads, the fence passes exactly when the second read has the same chunks with the same canonical inputs under the same supported binding |
| `VectorIndex.RebuildWithProvider` | crates/knowledge/src/knowledge_index_v2.rs:499-582 | End to end: it succeeds exactly when freezing, expectation, embedding and fence all hold; after a successful rebuild the row of every current chunk holds the vector the provider tagged with the place of that chunk's current text in its request; a failure leaves both tables as they were |
| `VectorIndex.PublishedIsCurrent` | crates/knowledge/src/knowledge_index_v2.rs:530-582 | For any source change between freezing and publishing, what is published is one valid vector row per current chunk, with the digest of its current text, under the current revision and snapshot |
| `A1.Column` | crates/docparser/src/grpc.rs:932-937 | The checked loop gives the bijective base-26 value, and fails exactly when the true column does not fit 32 bits |
| `A1.ColumnNameDenotes` | crates/docparser/src/grpc.rs:932-937 | Printing a column and reading it gives it back |
| `A1.ColumnNameIsUnique` | crates/docparser/src/grpc.rs:932-937 | Reading letters and printing them gives them back |
| `A1.ParseCell` | crates/docparser/src/grpc.rs:918-940 | A cell is parsed exactly when the normalised text is letters and digits denoting a row and a column from 1 to the largest 32-bit number, and to those numbers |
| `A1.DecoratedIsCell` | crates/docparser/src/grpc.rs:918-925 | A printed address with dollar signs inserted, letters in lower case and space around it parses to the same cell |
| `A1.KnownColumns` | crates/docparser/src/grpc.rs:932-937 | The letters count from A as 1 to Z as 26, AA as 27, ZZ as 702 |
| `A1.PrintedIsCell` | crates/docparser/src/grpc.rs:918-940 | For all such rows and columns the printed address parses to them |
| `A1.ParsedPrintsBack` | crates/docparser/src/grpc.rs:918-940 | A parsed address prints back to its normalised form up to leading zeros of the row |
| `A1.ParseRange` | crates/docparser/src/grpc.rs:942-956 | A range is parsed exactly when the text is one cell, or two around a single colon, in order, and to the numbers it denotes |
| `A1.RangeIsUnique` | crates/docparser/src/grpc.rs:942-956 | A text denotes at most one range |
| `A1.FromProtoRange` | crates/docparser/src/grpc.rs:965-988 | A wire range is accepted exactly when its numbers are those its text denotes; the other checks follow from that |
| `A1.PrintedIsRange` | crates/docparser/src/grpc.rs:942-956 | Every ordered pair of cells prints to a text that denotes it |
| `Base64.EncodeBytes` | crates/docparser/src/http_engine.rs:142-165 | The loop with its shifts, masks and padding computes the encoding |
| `Base64.TableIsStandard` | crates/docparser/src/http_engine.rs:143-143 | The program's table is table 1 of RFC 4648 |
| `Base64.KnownVectors` | crates/docparser/src/http_engine.rs:142-165 | The decoding reads the test vectors of section 10 of RFC 4648 and the ends of its table |
| `Base64.EncodeShape` | crates/docparser/src/http_engine.rs:146-164 | The output has 4 * ceil(n / 3) characters, all of the alphabet except the correct padding at the end |
| `Base64.DecodesBack` | crates/docparser/src/http_engine.rs:142-165 | Decoding under section 4 of RFC 4648, with padding bits zero, gives every byte string back |
| `Trace.AttachChild` | crates/knowledge/src/obs.rs:218-229 | The recursive search returns the tree with the child attached, or the tree unchanged |
| `Trace.AttachGrows` | crates/knowledge/src/obs.rs:218-229 | A leaf is attached exactly when its parent id is in the tree, under the first node with it in search order, and nothing else changes |
| `Trace.AddRowGrows` | crates/knowledge/src/obs.rs:161-178 | One turn of the row loop skips exactly the rows with the root's id and parentless root rows; any other becomes one node in its place |
| `Trace.RowsAreConserved` | crates/knowledge/src/obs.rs:159-178 | After the loop nodes and parent links are exactly the root and the rows not skipped, each once |
| `Trace.RowIsUnderItsParent` | crates/knowledge/src/obs.rs:169-177 | A row stands under a node with its parent id if the root or an earlier row has that id, and under the root otherwise |
| `Trace.Scan` | crates/knowledge/src/obs.rs:128-141 | The first pass finds the first root row, the first running named stage and the last failure |
| `Trace.PlaceStages` | crates/knowledge/src/obs.rs:179-197 | One synthetic node under the root is added for each stage without a row, and no other |
| `Trace.BuildTrace` | crates/knowledge/src/obs.rs:117-199 | The tree holds exactly the root, the rows not skipped and the synthetic stages, each under the node it belongs to |
| `Trace.NodesCopyRows` | crates/knowledge/src/obs.rs:201-216 | Every row not skipped has a node with its id, parent, name, kind, status, attempt and detail |
| `Trace.KeptIsCopied` | crates/knowledge/src/obs.rs:159-178 | Every node that is neither the root nor synthetic has those fields from one row not skipped |
| `Trace.SyntheticNodes` | crates/knowledge/src/obs.rs:122-196 | The synthetic root and stages field by field: no id, the fixed names and kinds, the attempt, an empty detail, and the status that the parse status gives |
| `Trace.EveryStageAppears` | crates/knowledge/src/obs.rs:179-197 | All five stages appear in every trace |

## Left out

- HTTP routing, token signing, capability checks, request keys from headers, and the Word service configuration: a callback's capability is taken as authenticated facts.
- Blob staging, publication and expiry: no claim is made about them. In particular, when `publish_save` finds the save already Saved (`crates/api/src/tender_editor.rs:1220-1222`), the newly staged blob is neither published nor expired.
- The version rows that `open` and `select` read before their transactions, and what they compare with them: versions never change, so only the transactions are modelled.
- Ownership of projects: one owner is assumed throughout, so the owner comparison inside the project lock only tests that the project exists.
- Database isolation: each transaction is one atomic step; row locks and retries are not modelled. `record_failure`, which takes no project lock, is admitted at any point.
- The round id of an import is required to be unused in a step; all other ids may be arbitrary, and a clash with a stored key is refused.
- Other fields of the draft rows (outline, byte length, object reference, author, time stamps), which no decision reads.
- The alias table of the image rewriter (its collection, conflicts and sorting by length) and the remote-fetch stage: `RewriteAliases` takes the aliases in any order. Remote references are not sorted by length, so a reference that is a prefix of another is rewritten inside it; nothing is claimed about every final link resolving.
- Rendered.RenderedSource.RewriteAliases: requires non-empty replacement texts, and keeps character boundaries if they begin with a character; the keys `objects/<hash>` always do.
- Glyph normalizations: the outcome of their check is a field of the contract.
- Decoding of proto units other than grids and ranges (`from_proto_units`, compound image parents): on both DocReader paths it is one parameter. The content of a worksheet locator is opaque.
- The page number of a PDF part wraps around at 32 bits, as in a release build; a build with overflow checks would stop instead.
- Transport timeouts and cancellation appear only as events of the stream; a failure while the server converts units to the wire format is not modelled.
- JSON decoding: sidecars and provider responses arrive as missing, malformed or decoded.
- The browser's own digest.
- The table of media types by file extension, which both DocReader calls share, is a parameter.
- Semantic index intents, their preparation and completion, and the advisory lock around a rebuild.
- VectorIndex.RebuildWithProvider: the end-to-end clause assumes, like the next member, that the hash does not collide on the texts compared.
- VectorIndex.PublishedIsCurrent: assumes that the hash does not collide on the two snapshot texts or on two inputs at the same place, because a fixed-width hash cannot be injective.
- Ingestion, job, workflow, formula and status code of the knowledge crate; the converters; speech recognition; the user interface.
