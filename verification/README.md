# Verified core of a product-data application

This project models, in Dafny, the parts of a bill-of-materials (BOM) and product-data web application whose behaviour
cannot be read off one branch: the walks over the BOM link graph, the transactional storing and purging of associated
files, the life of API tokens under concurrent rotation, the resolution of approval attributes and their aliases, the
discovery and registry of part files, and the page arithmetic of PDF binders. `dafny verify dfyconfig.toml` checks all
of it.

One module stands for one component, in a file of the same name.

* **BOM walks.** `BomPaths` defines nets, paths, path products and sums over all paths. `BomLinks` turns stored links
  into nets. `StackWalk` analyses a stack walk without a visited set; `FlattenBom`, `Occurrences`, `ArenaWalk`,
  `BomReach`, `CompileSheet` and `ReleaseBoundary` are the walks themselves. `QuantityAgreement` and `ArenaAgreement`
  say when the walks agree. The two preconditions the stack walks have are shown to be exact: they return if and only if
  the BOM is acyclic, and the memo in front of the query answers every question rightly, in whatever order they are
  asked, if and only if the parts asked about that share a case-folded key have the same rows. `TwinSpellings` runs the
  flattening walk on a BOM where they do not.
* **Associated files.** `AssociatedFiles` holds the two stores and the install, rollback and purge procedures under a
  fault plan that may make any step fail and decides how each call ends; `FileNames` cleans names and makes paths of
  them; `AssociatedRuns` follows records and files over arbitrary runs of calls.
* **API tokens.** `ApiTokens` holds the single calls, `TokenProtocol` the steps of concurrently running calls,
  `TokenRuns` what holds of every interleaving.
* **Approval.** `AttrKeys` canonicalises names, `Approval` resolves the decision, `AttrNormalise` rewrites stored
  attributes, `AliasTable` sanitises the configured names.
* **Files.** `FileDiscovery` picks the files of a part, `FileRegistry` and `RegistryLaws` keep their records,
  `FileRefresh` plans and carries out a refresh.
* **Binders.** `PdfMerge` merges documents, `Binder` builds the index and puts the binder together, `VisualPages` maps
  parts to pages, `PageLabels` and `Numerals` compute page labels.

`Wrappers` and `Filters` are helpers.

## What turned out false of the code

Where a promise fails, the exact condition under which it holds is proved; for the release boundary, that of each round.

* A cyclic BOM makes `_flatten_bom` and `_bom_occurrences` run forever (`FlattenBom.FlattenHaltsIffAcyclic`,
  `QuantityAgreement.OccurrencesHaltIffAcyclic`; a part listed under itself in `QuantityAgreement.SelfLinkRunsOn`).
* The memo of the stack walks is keyed without letter case while the query is exact, so two spellings of one part number
  get the rows of the one asked first (`BomLinks.TwoSpellingsMislead`, `BomLinks.MemoRightIffSameRows`), and the
  flattened quantities go wrong (`TwinSpellings.TwoSpellingsMisflatten`).
* Release as a traversal boundary compares without letter case too: an unreleased part is taken for released when the
  same round holds another spelling of it that is (`ReleaseBoundary.ReleasedTwinLetsIn`), and a round is right if and
  only if no such pair is in it (`ReleaseBoundary.KeptIsPassableIff`). The whole expansion is proved right when part
  numbers in play that differ in letter case only have the same latest revision, releases and children, which is
  sufficient but not necessary; in any case it stays within chains of parts released and linked in some letter case,
  and without blank revisions it misses nothing (`ReleaseBoundary.ExpandRelationshipRoots`).
* Attributes are moved to the standard approval names by a fixed table but read by the configured one, so a name taken
  out of the configuration, "released" say, is still moved to where it is read (`AttrNormalise.ReleasedIsMovedUnread`).
  Rewriting keeps the decision for all attributes if and only if the names moved to the status or the approver are all
  read and those moved to the date are not (`AttrNormalise.KeepsTheFlagIff`).
* A link with a null or zero quantity counts as one when flattened and as zero in the Arena export, so the two agree if
  and only if no link in use has one (`ArenaAgreement.ArenaAgreesIffQuantified`).
* Links to a blank part number are passed over by the set searches but followed by the flattening walk
  (`BomReach.SearchIsFlattenedPartsIffBlankFree`).
* `revoke_all_tokens` passes expired tokens over, so a rotation that checked its token before it expired survives it
  (`TokenRuns.GlobalLogoutIsFinalIff`).
* A replacement rotated before its creator returned survives a user revocation (`TokenRuns.EarlyRotationSurvives`). Where
  callers need not wait, that revocation is final if and only if no rotation of one of the user's tokens has passed its
  check, or would still pass it on what it loaded (`TokenRuns.UserRevocationIsFinalIff`).
* A purge loses the file if and only if the move aside works and the deletion and the move back both fail: the cleanup
  drops the quarantined copy (`AssociatedFiles.Depot.Purge`, `AssociatedRuns.PurgeEvent`).
* A file name is cleaned once more on its way into a path, which changes it if and only if it ends in a dot
  (`FileNames.CleanedTwiceIff`). So an accepted batch can put two new records on one file
  (`AssociatedRuns.AcceptedClash`); a batch keeps records and files paired if and only if no two of its cleaned names
  share a path that holds no file yet (`AssociatedRuns.CommitPairedIff`).
* Re-running an upsert reports changes if and only if some file time is finer than a millisecond, which is all a BSON
  date holds (`RegistryLaws.RerunChangesNothing`).
* The upsert deletes case variants the plan does not mention (`FileRefresh.PlanCoversRemovals`).
* The plain merge drops unreadable files without saying which, so the index fits if and only if those come last
  (`PdfMerge.AlignedIffUnreadableLast`); replacing the visual list after the index is built keeps the numbers right if
  and only if its length stays (`Binder.NumbersStayIffSameLength`); a file merged twice is looked up to its last copy
  (`VisualPages.OwnPageIffNotRepeated`).

## Model

| member | source | states |
|---|---|---|
| FlattenBom.FlattenBom | app/services/docpacks.py:185-257 | the flattened map holds exactly the parts some link path reaches, each with the sum over those paths of the product of the quantities; the paths are all link paths or, with consumed parts hidden, those on which no part before the end has a terminal process |
| FlattenBom.FlattenFull | app/services/docpacks.py:233-257 | the stack loop computes those path sums and ends on every acyclic BOM; it asks for the rows of exactly the root and the parts reached that do not end the walk, the memo answers all of them rightly, and the loop goes through the rounds of the walk that takes whatever the memo answers |
| FlattenBom.FlattenTop | app/services/docpacks.py:233-257 | the first-level walk is the path sum over one-step paths |
| FlattenBom.FlattenHaltsIffAcyclic | app/services/docpacks.py:240-257 | the walk, which has no visited set, comes to an end if and only if no path enters a part twice |
| FlattenBom.FlattenSumsAllPaths | app/services/docpacks.py:243-257 | the paths summed over are all link paths, each once |
| FlattenBom.HidingPrunesAtStops | app/services/docpacks.py:245-251 | hiding consumed parts keeps exactly the paths without a terminal-process part before their end, with the same parts and products |
| FlattenBom.NothingHidden | app/services/docpacks.py:245-251 | with consumed parts included, or no terminal process given, the result is that of the net without stops |
| FlattenBom.StopsFollow | app/services/docpacks.py:246-252 | the walk follows a path of links if and only if it has one step or, in a full walk, consumed parts are included or no part before its end has a process among the terminal ones |
| FlattenBom.FlattenedSumsFollowed | app/services/docpacks.py:233-257 | the map's quantities are the sums over exactly those paths, each once, with products taken over the unhidden net |
| BomPaths.TotalIsPathSum | app/services/docpacks.py:250-257 | the recursive edge-by-edge total is the sum over the explicit list of paths |
| BomPaths.AllPathsExact | app/services/docpacks.py:243-257 | on an acyclic net the list of paths is complete, repeats nothing and is in preorder |
| BomPaths.AcyclicIffBounded | app/services/docpacks.py:233-257 | acyclic nets are exactly those with a bound on path length |
| StackWalk.HaltsIffAcyclic | app/services/docpacks.py:240-257 | repeated popping and pushing empties the stack exactly on acyclic nets |
| StackWalk.RoundKeepsTotals | app/services/docpacks.py:243-257 | a round moves exactly the popped quantity out of what the stack still owes, for every part |
| StackWalk.RoundKeepsAhead | app/services/docpacks.py:243-257 | a round neither loses nor invents a part still to be visited |
| BomLinks.ChildrenCache.Lookup | app/services/docpacks.py:220-231 | the memo never changes the answer of the exact query, for a set of parts that share a key only with the same rows |
| BomLinks.MemoRightIffSameRows | app/services/docpacks.py:220-231 | for every series of questions: all are answered with the rows of the part asked about if and only if the parts asked about that share a case-folded key have the same rows |
| BomLinks.TwoSpellingsMislead | app/services/docpacks.py:222-229 | for any two spellings under one key there is a link list on which the second is answered with the rows of the first though it has none |
| BomLinks.QueryJoin | app/services/docpacks.py:220-231 | the rows of a parent come one by one in stored order |
| BomLinks.FlattenReads | app/services/docpacks.py:233-249 | an edge for each stored row of a part that does not end the walk, with its quantity, or one where that is null or zero |
| BomLinks.OccurrencesRead | app/services/docpacks.py:753-767 | an occurrence without a quantity reads as the link's, which reads as zero there when null; a link without occurrences and quantity counts as one |
| TwinSpellings.TwoSpellingsMisflatten | app/services/docpacks.py:220-257 | for any two spellings under one key there is an acyclic BOM with a root that links to both, on which the walk ends, has asked for both and books a part twice that one path leads to |
| Occurrences.BomOccurrences | app/services/docpacks.py:691-794 | per part, the entries are exactly one per occurrence path, with the path's segments and quantity product, counted with multiplicity; with consumed parts hidden, the paths are those on which no part before the end has a terminal process |
| Occurrences.StopsFollow | app/services/docpacks.py:776-794 | the occurrence walk follows a path of places if and only if it has one step or, in a full walk, consumed parts are included or no part before its end has a process among the terminal ones |
| Occurrences.MapListsFollowed | app/services/docpacks.py:771-794 | the map's entries are those of exactly these paths |
| Occurrences.PlacesRead | app/services/docpacks.py:747-794 | a place has the row's child, the quantity read for it and its sequence number, or the row's number if it has none |
| Occurrences.WalkPlaces | app/services/docpacks.py:771-794 | the stack loop collects exactly those entries |
| Occurrences.PushPlaces | app/services/docpacks.py:788-793 | one waiting place per row and occurrence, in order, with the level path extended and the quantity multiplied |
| QuantityAgreement.FlattenedIsSumOfOccurrences | app/services/docpacks.py:776-794 | when the occurrences of each link in use add up to its quantity, both walks list the same parts and occurrence quantities add up to the flattened quantity |
| QuantityAgreement.OccurrencesSumPaths | app/services/docpacks.py:776-794 | a part's occurrence quantities add up to the path sum over occurrences |
| QuantityAgreement.OccurrencesHaltIffAcyclic | app/services/docpacks.py:776-794 | the rounds of the occurrence walk end if and only if the BOM is acyclic, and if and only if those of the flattening walk do |
| QuantityAgreement.SelfLinkRunsOn | app/services/docpacks.py:240-257 | on a part listed under itself neither walk ends |
| CompileSheet.AggregateQty | app/services/docpacks.py:1853-1858 | the accumulation holds exactly the parts the lines name, each with the sum over its lines, a missing quantity counting as zero |
| CompileSheet.AggregateReordered | app/services/docpacks.py:1853-1858 | the same lines in any order give the same totals |
| ArenaWalk.ExportArena | app/services/arena_export.py:286-329 | the export ends on every finite link list, cycles included, fails exactly when a part outside the scope is met, and otherwise has one row per link path without repeated parts, in preorder, with level the path's length and total the product |
| ArenaWalk.ArenaExport.Walk | app/services/arena_export.py:286-329 | the recursion appends exactly the rows of the simple paths below a parent, in preorder |
| ArenaWalk.ExportFollows | app/services/arena_export.py:286-329 | every part the export follows has a row and every row is of such a part |
| ArenaWalk.SimplePathsMember | app/services/arena_export.py:290-306 | the ancestry guard enumerates exactly the paths whose parts never repeat |
| ArenaWalk.ArenaReads | app/services/arena_export.py:292-304 | the export reads an edge for each row whose child has a part number, in order, a null quantity as zero |
| ArenaAgreement.ArenaAgreesIffQuantified | app/services/arena_export.py:296-327 | on an acyclic BOM the export's totals are the flattened quantities for every part, if and only if no link in use has a null or zero quantity |
| ArenaAgreement.ExportSumsPaths | app/services/arena_export.py:286-329 | a part's total quantities add up to the path sum with the Arena reading of quantities |
| ArenaAgreement.ExportListsAllPaths | app/services/arena_export.py:286-329 | on an acyclic BOM the ancestry guard drops nothing: the rows are all link paths, in the same order |
| ArenaAgreement.UnquantifiedShows | app/services/arena_export.py:303-304 | a link in use without a quantity makes the two walks differ on its child |
| BomReach.ExactBomPairs | app/services/export_security.py:45-98 | the level-batched search returns exactly the root and all below it (or just its children), cycles included, and refuses a blank root |
| BomReach.CollectUniqueParts | app/services/arena_export.py:335-375 | the depth-first collection lists every part of the tree once, and fails exactly when one is outside the scope |
| BomReach.PartCollector.Walk | app/services/arena_export.py:351-372 | the recursion collects sets that are closed under links and lie in the parent's tree |
| BomReach.SearchIsFlattenedPartsIffBlankFree | app/services/export_security.py:53-98 | the search set is the flattened parts plus the root if and only if no blank child is in use |
| BomReach.HidingOnlyLeavesOut | app/services/docpacks.py:243-257 | hiding consumed parts gives a subset of the parts |
| CompileSheet.ExpandWithChildren | app/services/excel_compile.py:78-104 | the sheet is the row-weighted sum of the rows' own parts and flattened BOMs |
| CompileSheet.RowOrderIrrelevant | app/services/excel_compile.py:97-104 | the order of the rows does not matter |
| CompileSheet.SheetOfLinesIsFlattened | app/services/excel_compile.py:78-104 | a sheet that lists an assembly's own lines comes out as the assembly's flattened BOM |
| ReleaseBoundary.ExpandRelationshipRoots | app/services/authorization.py:688-776 | the expansion ends on any links; whatever the spellings, every part returned has a chain of parts from a root, each released and linked in some letter case, and without blank revisions every part with a chain of passable parts is returned; as long as part numbers in play that differ in letter case only are alike it returns exactly the parts with a chain from a root whose members are released rows and whose blank revisions are read as the newest row, or the newest released one for a restricted user; and it returns whatever the first round takes for released among roots with revisions |
| ReleaseBoundary.KeptBounds | app/services/authorization.py:736-752 | what a round takes for released lies between its passable parts and those released in some letter case |
| ReleaseBoundary.PermittedIsFolded | app/services/authorization.py:688-776 | every part with a chain of passable parts has one in some letter case |
| ReleaseBoundary.KeptIsPassableIff | app/services/authorization.py:736-752 | a round takes exactly its passable parts for released if and only if no other part of the round lends one a release |
| ReleaseBoundary.ReleasedTwinLetsIn | app/services/authorization.py:739-752 | with one spelling released and the other not, both as roots, the unreleased part is let in |
| ReleaseBoundary.PermittedIsLeast | app/services/authorization.py:688-776 | that is the least set that holds the passable roots and is closed under links into passable parts |
| ReleaseBoundary.PermittedIsByRows | app/services/authorization.py:688-776 | the permitted parts are those with such a chain, said by rows: released, linked parent to child either blank revision read as the newest row seen, from a root read likewise |
| ReleaseBoundary.BlankRootGivesNewest | app/services/authorization.py:705-718 | a root without a revision lets in the first row of its number, the first released one for a restricted user; where an unrestricted user has no row of it the revision stays blank |
| ReleaseBoundary.Expansion.ResolveBlankRevisions | app/services/authorization.py:705-718 | every entry of the memo is the revision of the newest row of some part number asked for that folds to its key, of the newest released one for a restricted user, or blank if there is none; and every number asked for has one |
| ReleaseBoundary.Expansion.NextFrontier | app/services/authorization.py:756-775 | the next frontier consists of children linked from a current part in some letter case; without blank revisions it holds all raw children of the current parts, and while twins are alike exactly those |
| ReleaseBoundary.Expansion.KeepPassable | app/services/authorization.py:736-752 | the rows read give the parts taken for released: all that are, only such as are in some letter case, and while twins are alike exactly those with a released row |
| AssociatedFiles.Depot.Store | app/services/extra_files.py:237-424 | whatever step fails before the batch is complete, every installed file and record is as before; otherwise every path holds its upload with a matching record and nothing else changed. It is rolled back if and only if an upload is refused, two names are alike or a step up to the last record saved fails, and it ends well if and only if none of that happens and no backup fails to go. When it is not rolled back every upload has a row with its cleaned name, size, type, digest, time and uploader, and with the part asked for where the row is new. Unless the last step, the clean-up, fails, no temporary file of the call is left |
| AssociatedFiles.Depot.Install | app/services/extra_files.py:311-385 | at every point the finished installations can be undone to the start; the loop completes if and only if none of its steps fails, two an item and one more where a file is replaced, and has then written exactly the batch |
| AssociatedFiles.Depot.InstallOne | app/services/extra_files.py:311-385 | an item is installed with its record if and only if none of its two or three steps fails; else nothing changed |
| AssociatedFiles.Depot.Rollback | app/services/extra_files.py:386-410 | undoing in reverse order restores files and records exactly |
| AssociatedFiles.Depot.Purge | app/services/extra_files.py:427-465 | a purge removes file and record, or restores the file, or loses it; which of these it is, is decided exactly by which of its steps fail |
| AssociatedFiles.Depot.Stage | app/services/extra_files.py:260-303 | staging succeeds if and only if every upload is admissible, no two folded names are alike and no save fails; no installed file changes |
| AssociatedFiles.CommittedSays | app/services/extra_files.py:311-355 | after a committed batch each row written last for an upload says its cleaned name, the time of the request, the type of the name, the digest and length of the content, the source "upload" and the uploader, the former one where none is given; a new row has the part, revision and path asked for, an old one keeps its own; all other rows and files stay |
| FileNames.CleanedTwiceIff | app/services/extra_files.py:79-94 | cleaning a cleaned name leaves it alone if and only if it does not end in a dot, for every string |
| FileNames.CleanedIsStripped | app/services/extra_files.py:79-94 | a cleaned name has only letters, digits, dots, underscores and dashes, is not empty and begins with no dot |
| FileNames.DotlessNamesApart | app/services/extra_files.py:87-139 | cleaned names that do not end in a dot have one path only if they are one name |
| FileNames.TwoNamesOnePath | app/services/extra_files.py:87-139 | two names the program accepts as different get one path |
| FileNames.ValidatedIff | app/services/extra_files.py:97-113 | a name is refused if and only if it is blank, has a control character, or once cleaned ends in one of the listed extensions or is a device name, whatever the letter case; else it is cleaned |
| FileNames.SegmentMeaning | app/services/extra_files.py:79-84 | a segment keeps letters, digits, dots, underscores and dashes, turns each slash into an underscore and each run of other characters into one |
| FileNames.TrimmedMeaning | app/services/extra_files.py:87-92 | the part after the last slash is made a segment and loses the dots at its ends, "file" if nothing is left |
| FileNames.CutMeaning | app/services/extra_files.py:93-94 | a cleaned name is cut to 150 characters of the stem and 20 of the extension of its first 180, the extension beginning at the last dot unless only dots stand before it |
| FileNames.RelPathMeaning | app/services/extra_files.py:69-139 | a path is the segments of the part, its revision and the cleaned name under one folder, with stand-ins for a blank part and revision |
| AssociatedRuns.WholeStays | app/services/extra_files.py:237-465 | over any run of store and purge calls, losing purges included, a record that has its file to itself keeps it with the recorded digest until it is purged itself, whatever state other records are in |
| AssociatedRuns.NoOrphansEver | app/services/extra_files.py:237-465 | no run leaves an installed file without a record |
| AssociatedRuns.EventPairedIff | app/services/extra_files.py:237-465 | a call keeps all records and files paired if and only if it neither commits two new records on one path nor loses a file |
| AssociatedRuns.RunKeepsPaired | app/services/extra_files.py:237-465 | over any run of calls without those two, every record has its file to itself and every installed file its record |
| AssociatedRuns.StoreEvent | app/services/extra_files.py:237-424 | a store call is one of the events of such runs, and unpairs paired stores if and only if it gets installed and two of its uploads share a path that held no file |
| AssociatedRuns.CommitPairedIff | app/services/extra_files.py:311-385 | a committed batch keeps records and files paired if and only if no two of its uploads share a path that held no file |
| AssociatedRuns.ClashTakesADot | app/services/extra_files.py:261-266 | under the program's own names an accepted batch can clash only where a cleaned name ends in a dot |
| AssociatedRuns.AcceptedClash | app/services/extra_files.py:260-266 | a batch of two that empty stores accept, and that leaves them unpaired however it is committed |
| AssociatedRuns.PurgeEvent | app/services/extra_files.py:427-465 | a purge call is one of the events of such runs, and unpairs paired stores if and only if its first step works and the next two fail |
| AssociatedRuns.PurgeKeepsOthersWhole | app/services/extra_files.py:446-465 | however a purge of a record with its own file ends, the others keep theirs and only its own is gone |
| ApiTokens.TokenService.CreateToken | app/services/api_tokens.py:114-145 | a token is created for an active user exactly when the name fits and the expiry asked for is within the policy, else nothing changes; its row has the owner, the name, no revocation and the expiry reported, and it is live exactly before that |
| ApiTokens.ExpiryIsAsAsked | app/services/api_tokens.py:73-102 | a token can expire at a time exactly when the default lifetime is from one day to the largest, the time is in the future by no more than the largest lifetime, and it is the date asked for, or the days of 24 hours asked for or set by default, and not both were asked |
| ApiTokens.TokenService.VerifyToken | app/services/api_tokens.py:148-173 | the token comes back exactly when live with an active owner; a live token of an inactive owner is revoked |
| ApiTokens.TokenService.RevokeToken | app/services/api_tokens.py:186-198 | only the first revocation takes effect and only it is reported; the row has the time and reason given, and no other row changes |
| ApiTokens.TokenService.RevokeUserTokens | app/services/api_tokens.py:201-209 | all of one user's unrevoked tokens are revoked, expired ones included, with the time and reason given, and no other row changes |
| ApiTokens.TokenService.RevokeAllTokens | app/services/api_tokens.py:212-220 | a global logout revokes exactly the unrevoked tokens that have not expired |
| ApiTokens.TokenService.RotateToken | app/services/api_tokens.py:223-257 | an uninterrupted rotation leaves the replacement live, with the old name and the expiry the policy gives, and the old token revoked, or no new live token |
| TokenProtocol.StepGrows | app/services/api_tokens.py:186-254 | no step of any call removes a token or changes a set revocation |
| TokenProtocol.StepMakes | app/services/api_tokens.py:114-254 | which steps make a token: only for an active user, with a name that fits and an expiry within the policy at that time |
| TokenProtocol.StepRevokes | app/services/api_tokens.py:148-254 | exactly which tokens each step of a call revokes, with which time and reason |
| TokenRuns.ReachableInvariant | app/services/api_tokens.py:186-254 | the protocol invariant holds in every reachable world, in every interleaving |
| TokenRuns.AtMostOneOfFamily | app/services/api_tokens.py:241-254 | once no rotation of a token is in flight, at most one of it and its direct replacements is unrevoked, in every interleaving |
| TokenRuns.OneWinnerEver | app/services/api_tokens.py:241-247 | a rotation of a token can be won once only |
| TokenRuns.RevocationIsKept | app/services/api_tokens.py:186-198 | a revocation's time and reason never change again, in every run |
| TokenRuns.UserRevocationIsFinal | app/services/api_tokens.py:201-254 | where replacements are rotated only after the call that made them returned: after revoking a user's tokens, in any interleaving, once all rotations have returned no token the user had and none made from them is live |
| TokenRuns.FinalIffNotExposed | app/services/api_tokens.py:223-254 | under the same rule a set of dead tokens stays dead for good if and only if no rotation has checked one and still finds it unrevoked |
| TokenRuns.GlobalLogoutIsFinalIff | app/services/api_tokens.py:212-220 | under the same rule a global logout is final if and only if no rotation in flight checked a token that has expired since |
| TokenRuns.FinalForAnyIffNotOpen | app/services/api_tokens.py:223-254 | without the rule dead tokens stay dead for good if and only if no rotation of one has passed its check or would still pass it |
| TokenRuns.UserRevocationIsFinalIff | app/services/api_tokens.py:201-254 | without the rule a user revocation is final if and only if no rotation of one of the user's tokens has passed its check or would still pass it |
| TokenRuns.GlobalLogoutIsFinalForAnyIff | app/services/api_tokens.py:212-254 | without the rule a global logout is final if and only if no rotation at all has passed its check or would still pass it |
| TokenRuns.EarlyRotationSurvives | app/services/api_tokens.py:223-254 | from one token and one rotation that has loaded it, a run in which a descendant outlives the user revocation |
| TokenRuns.NewTokensExpire | app/services/api_tokens.py:114-145 | over any run, a token that was not there at the start was made by one of its steps and expires after that step by no more than the largest lifetime |
| TokenRuns.UninterruptedRotation | app/services/api_tokens.py:223-257 | the four steps of a rotation, run without interruption, end in the state a rotation is specified to end in: replacement made and old token revoked, or no token changed |
| AttrKeys.CanonicalKeyIdempotent | app/services/canonical_fields.py:184-194 | canonicalising twice is canonicalising once, for every string |
| AttrKeys.KeysAreTheFixedStrings | app/services/canonical_fields.py:184-194 | the canonical keys are exactly the strings it leaves alone |
| AttrKeys.KeyIsWords | app/services/canonical_fields.py:184-194 | the key of a text is its runs of letters and digits, lowered, joined by single underscores |
| Approval.ResolveApproval | app/services/canonical_fields.py:594-704 | the indexed loops compute the decision function; approved holds if and only if no value under a status or approver name is false, zero, an unapproved text or a placeholder, and some value is true, nonzero, an approved text or a name; the approver is such a name, the date what some value under a date name prints as |
| Approval.ApprovalClosedForm | app/services/canonical_fields.py:606-704 | approved holds exactly when nothing reads as negative or placeholder and something is positive or a real name; an unapproved result carries no approver |
| Approval.ApprovalByLeaves | app/services/canonical_fields.py:527-704 | the same if and only if, in terms of the values stored and the tokens of their texts |
| Approval.TokenInOnePass | app/services/canonical_fields.py:518-522 | a token is the text without white space around it, as it is when that is dashes only, else lowered with one space for each run of white space, underscores and dashes |
| Approval.DateByLeaves | app/services/canonical_fields.py:640-704 | the date is what some value under a date name prints as, and blank only when none prints anything |
| Approval.NegativeWins | app/services/canonical_fields.py:686-691 | one negative value anywhere forces unapproved |
| Approval.OrderIrrelevant | app/services/canonical_fields.py:606-704 | the flag depends on neither attribute order nor list order |
| Approval.SelectedMember | app/services/canonical_fields.py:568-582 | what is selected for a field is exactly the attributes under one of its aliases |
| Approval.IterValues | app/services/canonical_fields.py:568-582 | the indexed selection is alias by alias, each attribute once |
| Approval.ApprovalScan.TakeAll | app/services/canonical_fields.py:618-672 | the scan loops absorb all leaves in order |
| AttrNormalise.AttrBag.Normalise | app/services/attrs.py:103-131 | popping and rewriting in place by the fixed table, with the decision taken by the table in use, gives the rewritten attributes |
| AttrNormalise.TargetMeaning | app/services/attrs.py:103-117 | a name is moved to the first field that lists it: status, approver, date |
| AttrNormalise.NormalisedMember | app/services/attrs.py:103-131 | the attributes afterwards: those under no approval name, for each field all values given under its names, one as it is and more as a list, and the flag for an approver without a status |
| AttrNormalise.NormalisingKeepsTheFlag | app/services/attrs.py:103-131 | when the names moved are those read, rewriting under one set of rules leaves the decision unchanged under those rules and any others |
| AttrNormalise.KeepsTheFlagIff | app/services/attrs.py:92-131 | for any rules and any table in use, the decision is kept for all attributes if and only if every name moved to the status or the approver is read and no name moved to the date is |
| AttrNormalise.ReleasedIsMovedUnread | app/services/attrs.py:92-131 | with "released" taken out of the configured status names a part that has only that attribute turns from unapproved to approved |
| AttrNormalise.SanitisedHasOwnNames | app/services/canonical_fields.py:321-370 | whatever is configured, the sanitised table reads each approval field under its own name and no other |
| AttrNormalise.ApprovedIffVoiced | app/services/canonical_fields.py:606-704 | approved holds exactly when something is said and nothing says no; only the second half depends on the rules |
| AttrNormalise.OthersUntouched | app/services/attrs.py:108-117 | all other attributes stay, in order |
| AttrNormalise.ApproverWasNamed | app/services/attrs.py:119-131 | when the names moved are those read, the approver afterwards is one who was named, and the same one when only one is named |
| AttrNormalise.NormalisedIsDict | app/services/attrs.py:119-131 | no name is set twice |
| AttrNormalise.NamesMoved | app/services/attrs.py:92-100 | the ten names that are moved, and to which field each |
| AttrNormalise.DefaultsAreStandard | app/services/attrs.py:92-100 | the fixed table meets the conditions of these results, and so does using the defaults: each field holds its own standard name, no name belongs to two fields, and what is moved is what is read |
| AliasTable.Sanitize | app/services/canonical_fields.py:321-370 | the loops compute the sanitised table |
| AliasTable.NormalizeAliasList | app/services/canonical_fields.py:298-318 | the names of a field, canonical, without blanks and repeats, with its own id |
| AliasTable.SanitisedMember | app/services/canonical_fields.py:321-370 | a name ends up with a field exactly when it is its id, or no field's id and this is the first field that wants it |
| AliasTable.SanitisedByNames | app/services/canonical_fields.py:321-370 | the same in terms of the configuration: the names are those in the last item about the field, a list's items or the pieces of a text between commas, semicolons and line ends, or else its defaults |
| AliasTable.NamesArePartitioned | app/services/canonical_fields.py:346-370 | every field keeps its id and no name belongs to two fields |
| AliasTable.Lookups.constructor | app/services/canonical_fields.py:458-484 | a name leads to the first field that lists it, a field to the names of its first entry; these are the two maps of LookupsAreInverse |
| AliasTable.LookupsAreInverse | app/services/canonical_fields.py:458-484 | on a sanitised table a name leads to a field exactly when the field lists it |
| AliasTable.SanitisingTwice | app/services/canonical_fields.py:321-370 | sanitising a stored sanitised table changes nothing |
| AliasTable.CanonicalKeyFits | app/services/canonical_fields.py:184-194 | the key function in use meets the condition of these results |
| FileDiscovery.Discover | app/services/filescan.py:299-359 | discovery fails exactly when something found is outside its root; otherwise each kind found holds its best candidate: a datasheet by its own name before other matches, then the first source, then the newest file |
| FileDiscovery.BestIsBest | app/services/filescan.py:281-296 | the fold keeps the lexicographic best: match, source rank, newest, first seen |
| FileDiscovery.BestIsUnique | app/services/filescan.py:281-296 | there is one best candidate only |
| FileDiscovery.SourcesAreReordered | app/services/filescan.py:45-64 | the approved flag is a stable reordering of the sources |
| FileDiscovery.SourcesByFlag | app/services/filescan.py:45-64 | with the flag given the sources meant for such parts come first; sources without a root are left out |
| FileDiscovery.FlagOnlyReorders | app/services/filescan.py:45-64 | approved, unapproved and unset find the same kinds of file and fail alike |
| FileDiscovery.PreferredSourceWins | app/services/filescan.py:281-296 | a preferred source wins over an equally good match elsewhere |
| FileRegistry.Registry.UpsertBatch | app/services/filescan.py:403-547 | the loop computes the new rows, the report and the count |
| FileRegistry.Registry.Upsert | app/services/filescan.py:421-533 | one record: case variants but one deleted, the rest written, a new row only without any |
| FileRegistry.Registry.RemoveStale | app/services/filescan.py:595-658 | exactly the part's rows not found again, not on disk and allowed are removed; none when storage is out of reach |
| RegistryLaws.UpsertRecords | app/services/filescan.py:421-533 | after one record: the first row of the part and kind in any letter case that holds the path, else the oldest, has the record's values over its own and is the only one left; without any there is a new row with the next id; a record without number or extension changes nothing |
| RegistryLaws.UpsertReports | app/services/filescan.py:503-533 | a record reports a new row with all it says, or the fields in which the kept row read otherwise, or nothing when there are none |
| RegistryLaws.ItemSays | app/services/filescan.py:416-510 | what a record says with its defaults filled in: the first number and revision set, its path absolute or else relative with forward slashes and none in front, its other fields as given |
| RegistryLaws.UpsertLeavesOne | app/services/filescan.py:439-468 | one row of the identity is left: the one holding the path, else the oldest, else a new one |
| RegistryLaws.UnreportedKeepsRow | app/services/filescan.py:512-533 | an upsert that reports no change for a record leaves every field of its row reading as before |
| RegistryLaws.UpsertLeavesOthers | app/services/filescan.py:439-468 | rows of other identities are untouched and in order |
| RegistryLaws.BatchLeavesOthers | app/services/filescan.py:421-533 | a batch touches no identity outside it |
| RegistryLaws.OneRowPerIdentity | app/services/filescan.py:421-533 | each identity in a batch has exactly one row afterwards, holding the last incoming path and values |
| RegistryLaws.RerunChangesNothing | app/services/filescan.py:513-547 | re-running a batch of distinct identities changes no row, and reports none if and only if all times are whole milliseconds |
| FileRefresh.PlanRefresh | app/services/filescan.py:661-723 | the plan counts the records without and with a stored row and lists the stale rows |
| FileRefresh.CountedAs | app/services/filescan.py:661-700 | a record with an extension is planned as a replacement if a row of its part and kind is stored, in any letter case, else as an addition |
| FileRefresh.PlanCoversRemovals | app/services/filescan.py:661-723 | the rows a refresh removes are exactly the planned stale ones if and only if no identity in the batch is stored twice |
| FileRefresh.PlanCoversAdditions | app/services/filescan.py:661-723 | the rows a refresh adds are as many as planned |
| FileRefresh.PlanCoversChanges | app/services/filescan.py:661-723 | every row a refresh changes is one a planned replacement names |
| FileRefresh.GoneIffSecond | app/services/filescan.py:439-460 | the upsert drops a row exactly when it is not the survivor of its identity |
| PdfMerge.MergeFiltered | app/services/docpacks.py:2446-2478 | the kept pages in order, the documents with pages left, and one plus the pages before each |
| PdfMerge.Merge | app/services/docpacks.py:2422-2443 | the pages of the readable documents in order and their start pages |
| PdfMerge.DocumentAt | app/services/docpacks.py:2446-2478 | at its start page the merged document holds the document's pages |
| PdfMerge.AlignedIffUnreadableLast | app/services/docpacks.py:2422-2443 | the start pages pair up with the documents if and only if no readable document follows an unreadable one |
| Binder.BuildBinder | app/services/docpacks.py:3226-3366 | the index lists every kept document with the page on which it starts in the finished binder |
| Binder.BuildIndex | app/services/docpacks.py:3281-3356 | the lines drawn, and the number of pages they take |
| Binder.TwoPassIndex | app/services/docpacks.py:3359-3362 | the second pass has as many pages as it assumed |
| Binder.IndexLengthFixed | app/services/docpacks.py:3281-3362 | the number of index lines does not depend on the assumed page count |
| Binder.DocumentInBinder | app/services/docpacks.py:3455-3469 | from its index page on, the binder holds the document's pages |
| Binder.SectionPages | app/services/docpacks.py:3336-3349 | each section line gives the page on which its section starts |
| Binder.SectionLineIff | app/services/docpacks.py:3336-3349 | the section lines are exactly those of the sections that have pages, each with one plus the pages before it |
| Binder.SectionLinesRise | app/services/docpacks.py:3336-3349 | the section lines come in the order of their pages, one a section |
| Binder.IndexInBinder | app/services/docpacks.py:3364-3366 | the index's pages stand in order behind the cover, or in front of everything without one |
| Binder.IndexKeepsOrder | app/services/docpacks.py:3364-3366 | inserting the index keeps the order of the sections |
| Binder.NumbersStayIffSameLength | app/services/docpacks.py:3380-3450 | after the visual list is replaced the numbers are right if and only if its length is unchanged |
| VisualPages.FirstPages | app/services/docpacks.py:3401-3413 | each part gets the least page recorded for its documents' files |
| VisualPages.OwnPageIffNotRepeated | app/services/docpacks.py:3401-3407 | the page recorded for a document is its own if and only if its file is not merged again later |
| VisualPages.FirstDocumentsPage | app/services/docpacks.py:3401-3413 | without repeated files each part gets the page of its first document |
| VisualPages.PartPageHoldsItsDocument | app/services/docpacks.py:3401-3413 | after the filtered merge of files none of which is repeated, the pages of a part's first document stand in the body where the part's page says |
| PageLabels.FillLabels | app/services/docpacks.py:545-588 | every page gets the label of the range with the greatest start not after it, and none before the first range |
| PageLabels.FormatMeaning | app/services/docpacks.py:499-512 | each style writes a number that reads back as it; roman numerals and letters only of positive numbers |
| PageLabels.LabelIsUnique | app/services/docpacks.py:562-588 | that determines the label |
| Numerals.IntToLetters | app/services/docpacks.py:487-496 | the loop computes the letters of a number, nothing for numbers below one |
| Numerals.LettersReadBack | app/services/docpacks.py:487-496 | reading the letters back gives the number |
| Numerals.LettersWriteBack | app/services/docpacks.py:487-496 | every string of A to Z is the letters of its value, so the numerals are a bijection |
| Numerals.IntToRoman | app/services/docpacks.py:460-484 | the greedy loop computes the numeral |
| Numerals.RomanReadsBack | app/services/docpacks.py:460-484 | a subtractive reading of the numeral gives the number back, for every positive number |
| Numerals.RomanByPlaces | app/services/docpacks.py:460-484 | a numeral is an M for every thousand and then its hundreds, tens and ones, each as that digit is written |

## Left out

* PDF and Excel drawing, fonts, stamps, QR codes and ZIP writing: documents are sequences of pages, index layout is only
  the line height, and the height under the first page's heading is a parameter.
* MongoDB, Flask, sessions and threads: queries are reads of sequences and maps, each single update and the multi-row
  revocations are atomic steps. Row ids grow with insertion. Of stored values only the millisecond rounding of dates is
  modelled.
* Hashing, randomness and signed URLs: tokens, staging names and row ids are fresh numbers.
* Paths, symbolic links and disk errors: paths are abstract; a fault plan says which steps fail. A failure inside the
  rollback of a store call is not modelled; a failing restore inside a purge is.
* `_expectations_for` and the other name tables of discovery, and the normalisation of datasheet names: the names
  to look for are parameters.
* Floating point: quantities are exact reals.
* Identities are taken as already cleaned: cleaning revisions twice is not cleaning them once ("0.0" gives "0", then "").
* The order of the maps returned by the flattening and compiling walks, and the two-digit rendering of level paths.
* Python's recursion limit in the recursive walks, and page-label ranges with a negative start.
* Letters outside A to Z: lower-casing and case folding act on A to Z only; white space is that of ASCII.
* The alias definitions are a parameter with ids that are distinct keys; labels and the multi-value flag are dropped.
* Numbering allocation, role tables, response filters, order totals, status maps, filename building and part
  materialisation: separate components or table look-ups.
- ArenaAgreement.ArenaAgreesIffQuantified: asks of links in use for effective revisions equal to link revisions, no blank
  children and no negative quantities; the export's effective-revision query is a parameter.
- ArenaWalk.ExportArena: stored links are taken in the order of child part number and revision that the query asks for.
- FlattenBom.FlattenBom: asks that parts the walk asks about under one case-folded key have the same rows; so do the
  occurrence walk and the compile sheet, for the parts they ask about.
- ReleaseBoundary.ExpandRelationshipRoots: what it returns where part numbers in play differ in letter case only and are
  not alike is bounded from both sides, not given exactly; the lower bound asks for given revisions.
- TokenRuns.UserRevocationIsFinal: a replacement is rotated only after the call that made it has returned;
  `TokenRuns.UserRevocationIsFinalIff` is the result without that.
- FileNames.SafeFilename: case folding of names is that of A to Z, and extensions are cut as `os.path.splitext` cuts them.
- FileRefresh.PlanCoversRemovals: the records are those discovery found, of distinct identities, with no white space
  around the part number; the plan trims what the upsert does not.
- FileRegistry.Registry.UpsertBatch: the changed fields of a report are a set, so their order is not modelled, and the
  discovery stamp of new rows is left out.
- VisualPages.FirstPages: every document has a start page, as after the filtered merge.
- PdfMerge.Merge: a file whose pages cannot be appended after it was opened counts as unreadable.
