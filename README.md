# Release tracker: a Dafny model of its server handlers and client rules

The release tracker is a small CRUD application. An Express server keeps
three JSON files:

- `accounts.json`: customer accounts, each with a region;
- `available_releases.json`: release versions, which the routes call "regions", each with a feature list;
- `releases.json`: releases of a version to an account, each with completion data and defects.

A React client lists, filters, edits and summarises these records. This
project models the logic of both sides as Dafny, and proves what each
operation guarantees.

- **Server.** The create, update and delete handlers become the methods of
  the class `Server.Store`, which holds the three collections.
  - The shared name and id rules live in `Repository`.
  - Their invariant is `Repository.Valid`: distinct ids, names distinct
    ignoring case, and names stored upper-cased. Every handler preserves it.
  - The read side lives in `Listing`: the filtered and date-sorted release
    list, and `/api/stats`.
  - The start-up backfill lives in `Migration`.
  - Recipient handling of the e-mail endpoint lives in `Email`: address
    validation, recipient parsing, the count checks before sending, and the
    mapping of failures to HTTP statuses.
- **Client.** Each component is a module.
  - A component whose handlers replace several pieces of state is a class
    whose methods modify its fields: `ReleaseForm.FormState`,
    `ReleaseVersionManager.VersionEditor` and `RegionManager.RegionEditor`.
  - The other components' rules are functions with lemmas: filters, folds,
    icon and class mappings, and filter-state updates.
- **Parameters.** Clocks, dates and the user are inputs:
  - `now`, `nowMs` and `today` are the clock;
  - `dateKey` is how a `release_date` string orders;
  - `role` is the logged-in user's role.

Conventions:

- A JSON property that the code reads through `x || ""` is a `string`, with
  "" for missing.
- `completion_date` and `time_taken_hours` distinguish missing, null and a
  value (`Common.JsonField`). The backfill tests for their presence.
- `defects`, `features` and `products` are `Option<seq<…>>`.

## Model

| member | source | states |
|---|---|---|
| Repository.NextId | backend/server.js:482 | the new id is at least 1 and larger than every existing id, and it is either 1 or one more than an existing id |
| Repository.IndexOfId | backend/server.js:512 | the index of the first record with the id, or -1 exactly when no record has it |
| Seqs.IndexWhere | backend/server.js:512 | `findIndex`: the first index whose element satisfies the test, or -1 exactly when none does; `Repository.IndexOfId`, `Server.IndexOfRelease` and `Entities.IndexOfName` are its instances |
| Repository.FindById | backend/server.js:564 | None exactly when no record has the id; otherwise the first stored record with that id, the one at `Repository.IndexOfId` |
| Repository.NewRecord | backend/server.js:491-497 | the appended record has a fresh id, the upper-cased name (same name ignoring case), the given details and creation time, and no update time |
| Repository.Replace | backend/server.js:538-544 | only index k changes; it keeps its id and `created_at` and takes the upper-cased name, the new details and the update time |
| Repository.RemoveId | backend/server.js:572-574 | the result is a subsequence, in stored order, holding only records without the id; its length is the number of such records, and every copy of each such record is kept |
| Repository.CreatePreservesValid | backend/server.js:474-498 | appending a record whose name is not taken ignoring case keeps ids distinct, names distinct ignoring case, and names upper-case |
| Repository.UpdatePreservesValid | backend/server.js:519-544 | replacing a record, under a name no other record has ignoring case, keeps the invariant |
| Repository.DeletePreservesValid | backend/server.js:572-574 | a delete keeps the invariant |
| Repository.CreateThenDeleteRestores | backend/server.js:482-498 | deleting the id a create just assigned gives back the collection as it was |
| Repository.DeleteAbsentIsNoOp | backend/server.js:572-574 | deleting an id no record has changes nothing |
| Repository.DeleteFreesName | backend/server.js:474-480 | once a record is deleted, a create with its name passes the uniqueness check (the check is `Repository.NameTaken`) |
| Repository.DeleteKeepsReferences | backend/server.js:561-574 | a delete that the reference guard allows leaves every reference that resolved before still resolving (the guard is `Repository.Referenced`) |
| Server.ProcessFeatures | backend/server.js:485-489 | one stored feature per sent feature, in order, with its name and description; its id is the sent id when one is given, else `nowMs` plus its index |
| Server.IndexOfRelease | backend/server.js:793 | the index of the first release with the id, or -1 exactly when none has it |
| Server.WithInput | backend/server.js:747-762 | the body's fields are stored as sent; an empty completion date or time taken becomes null; an empty `defects_raised` becomes "0"; missing defects become []; id and `created_at` are kept |
| Server.NewRelease | backend/server.js:743-764 | the created release has the next id, which no release has; its status is "Scheduled" when none is sent; it has both timestamps |
| Server.UpdatedRelease | backend/server.js:799-815 | the updated release keeps its id and `created_at`, takes the status exactly as sent, and gets the new update time |
| Server.AppendReleaseKeepsIds | backend/server.js:764 | release ids stay distinct after a create |
| Server.RemoveReleaseKeepsIds | backend/server.js:832 | release ids stay distinct after a delete |
| Server.Store.constructor | backend/server.js:384-392 | the store holds the three collections as loaded |
| Server.Store.PostVersion | backend/server.js:468-505 | a name taken ignoring case gives 400 "Release version already exists" and no change; otherwise the new record is appended and returned; accounts and releases are unchanged; the invariant is kept (the guard is `Repository.NameTaken`) |
| Server.Store.PutVersion | backend/server.js:507-552 | an unknown id gives 404 and no change; a name another record has gives 400 and no change; otherwise only that record is replaced; the invariant is kept (the name guard is `Repository.NameTakenByOther`) |
| Server.Store.DeleteVersion | backend/server.js:554-581 | while a release's `release_version` equals the record's name: 400 and no change; otherwise the records with the id are removed; the invariant is kept (the guard is `Repository.Referenced`) |
| Server.Store.PostAccount | backend/server.js:593-617 | a name taken ignoring case gives 400 "Account already exists"; otherwise the new account is appended and returned; the invariant is kept (the guard is `Repository.NameTaken`) |
| Server.Store.PutAccount | backend/server.js:619-654 | 404 for an unknown id; 400 for a name another account has; otherwise only that account changes its name, region and update time; the invariant is kept (the name guard is `Repository.NameTakenByOther`) |
| Server.Store.DeleteAccount | backend/server.js:656-681 | while a release's `account_name` equals the account's name: 400 and no change; otherwise the accounts with the id are removed; the invariant is kept (the guard is `Repository.Referenced`) |
| Server.Store.PostRelease | backend/server.js:724-771 | the new release is appended and returned, whatever the body; release ids stay distinct |
| Server.Store.PutRelease | backend/server.js:773-826 | 404 and no change for an unknown id; otherwise only that release is replaced, and the reply carries it |
| Server.Store.DeleteRelease | backend/server.js:828-839 | every release with the id is removed, with no check, and the answer is always success |
| Listing.AccountsInRegionMembers | backend/server.js:699-702 | a name is among the region's account names exactly when some account with that region has that name |
| Listing.FilterReleasesMatches | backend/server.js:688-711 | the three conditional filters keep exactly the releases meeting every set criterion, in stored order |
| Listing.FilterReleases | backend/server.js:688-711 | the handler's filters keep at most the stored releases, and only stored ones |
| Listing.InsertMultiset | backend/server.js:714-716 | inserting adds exactly one element |
| Listing.InsertSorted | backend/server.js:714-716 | inserting into a newest-first list keeps it newest-first |
| Listing.InsertStable | backend/server.js:714-716 | inserting puts the element in front of those sharing its date and leaves other dates as they were |
| Listing.SortDescMultiset | backend/server.js:714-716 | the sort is a permutation |
| Listing.SortDescSorted | backend/server.js:714-716 | the sort is newest first |
| Listing.SortDescStable | backend/server.js:714-716 | releases with equal dates keep their stored order |
| Listing.SortDesc | backend/server.js:714-716 | the sort keeps the number of releases |
| Listing.ListReleases | backend/server.js:683-722 | the listing is a permutation of the filtered releases, newest first |
| Listing.ListReleasesSpec | backend/server.js:688-717 | a release is listed exactly when it is stored and meets every set criterion; the list is newest first; equal dates keep stored order (the criteria are `Listing.MatchesQuery`) |
| Listing.TotalFeaturesConcat | backend/server.js:851-854 | the feature total adds up over concatenated version lists |
| Listing.TotalFeaturesNone | backend/server.js:852-853 | versions without feature lists contribute 0 |
| Listing.TotalFeatures | backend/server.js:851-854 | the total is at least the feature count of each version |
| Listing.NonEmpty | backend/server.js:859-870 | the falsy-skipping folds count exactly the non-empty keys |
| Listing.Upcoming | backend/server.js:871-874 | the upcoming count is the number of releases that are Scheduled and dated at or after now; it is 0 exactly when there is none |
| Listing.ComputeStats | backend/server.js:847-876 | the totals are the collection sizes and the features summed over versions; the keys of `statusCounts` are exactly the statuses; the version and region counts have only non-empty keys; `upcomingReleases` is the number of Scheduled releases dated at or after now |
| Listing.StatusCountsSumToTotal | backend/server.js:855-858 | the status counts add up to `totalReleases` |
| Seqs.Histogram | backend/server.js:855-858 | the count dictionary has exactly the keys that occur, each mapped to its number of occurrences |
| Listing.KeyedCountsSum | backend/server.js:859-870 | the version counts add up to the releases with a version, and the region counts to the accounts with a region |
| Listing.CountsAreMultiplicities | backend/server.js:855-870 | every count is the number of records carrying that key |
| Migration.MigrateRecord | backend/server.js:429-444 | a record lacking `completion_date` gets null dates, "0" defects, empty notes, [] defects and keeps `defect_details`; any other record is returned as is; no result needs migrating |
| Migration.MigrateReleases | backend/server.js:427-444 | the loop maps every record, and its flag is set exactly when some record lacked `completion_date`; without it the records are unchanged |
| Migration.MigrateAll | backend/server.js:429-444 | record-wise backfill of every release, in order |
| Migration.MigrateIdempotent | backend/server.js:431 | a second run changes nothing and leaves nothing to migrate |
| Migration.MigrateKeepsIds | backend/server.js:429-444 | the backfill keeps release ids distinct |
| Migration.Migrate | backend/server.js:424-453 | the releases are written only when some record needed the backfill, and then they are the backfilled list; the other collections are unchanged |
| Email.PlainMeaning | backend/server.js:282 | a run matched by `[^\s@]*` is one with no white space and no '@' |
| Email.FirstAt | backend/server.js:302 | the index of the first '@', or -1 when there is none |
| Email.EmailShapeMeaning | backend/server.js:282 | the shape test holds exactly when the address has one '@' after a non-empty local part, no white space, and a dot strictly inside the domain |
| Email.DomainPartOfShape | backend/server.js:302 | on a well-shaped address, `split("@")[1]` is everything after the '@' (the split is `Email.DomainPart`) |
| Email.CheckSpec | backend/server.js:290-311 | an address is accepted, trimmed, exactly when it is non-blank once trimmed, well shaped, and its lower-cased domain is allowed; a blank one and a malformed one are refused with their messages |
| Email.Check | backend/server.js:290-311 | an accepted address is the trimmed input and is not empty; a blank input is refused with "Empty email address found" |
| Email.VerdictAt | backend/server.js:289 | each input is judged on its own |
| Email.ValidOnesPartition | backend/server.js:289-312 | every input lands in exactly one of the two lists |
| Email.AcceptedAddressesFrom | backend/server.js:311 | every valid address comes from an accepted input |
| Email.NoRejectionsKeepsAll | backend/server.js:289-312 | without refusals every input is accepted, one address each |
| Email.ValidOnesAreValid | backend/server.js:290-311 | every valid address is trimmed, well shaped, and has an allowed lower-cased domain |
| Email.NoErrorsKeepsAll | backend/server.js:289-312 | a list without errors is accepted whole, each address trimmed |
| Email.AsArray | backend/server.js:287 | a single address becomes a one-element list; a list is kept |
| Email.ValidateEmailAddresses | backend/server.js:281-315 | the loop's two lists are the valid addresses and the errors in input order, and together they count the inputs |
| Email.Validate | backend/server.js:900-901 | the validation of TO: the valid addresses and errors, which together count the inputs |
| Email.ValidateIfGiven | backend/server.js:904-918 | CC and BCC are validated only when non-empty; otherwise they add nothing |
| Email.Decide | backend/server.js:921-938 | sending proceeds exactly when there are no errors and 1 to 50 recipients; any error refuses with all errors, CC and BCC ones tagged |
| Email.SendPreflight | backend/server.js:899-938 | the same decision stated on the raw recipient lists |
| Email.NoValidRecipientsNeedsEmptyTo | backend/server.js:929-931 | "No valid recipients found" needs a TO list with neither an address nor an error |
| Email.ErrorStatus | backend/server.js:1134-1162 | a refusal (validation failure, or too many recipients) gives 400; otherwise ECONNREFUSED gives 503, ETIMEDOUT 504 and ENOTFOUND 503; otherwise a response code of 500 or more gives 502, one from 400 to 499 gives 400, and anything else 500 |
| Email.ErrorMessage | backend/server.js:1134-1162 | a refusal is answered with its own text; each later case of the chain with its fixed reply, in the same order as the status |
| Email.ValidationFailureAnswer | backend/server.js:922-924 | a validation failure is answered with 400 and its own message |
| Email.TooManyRecipientsAnswer | backend/server.js:934-938 | too many recipients is answered with 400 and its own message |
| Email.NoRecipientsAnswer | backend/server.js:929-931 | "No valid recipients found" falls through to 500 |
| Email.PreflightRefusalStatus | backend/server.js:921-938 | every refusal other than no recipients gives 400 with its message; no recipients gives 500 |
| Email.ParseRecipients | backend/server.js:1058-1069 | a falsy or non-text non-list field gives []; a list is kept; a text gives its trimmed pieces in order with exactly the empty ones dropped: a subsequence of the pieces, as long as the number of non-empty pieces, holding every non-empty one |
| Email.ParsedRecipientsAreTrimmed | backend/server.js:1062-1064 | every parsed recipient is already trimmed |
| Email.ParsedRecipientsHaveNoSeparator | backend/server.js:1061-1064 | no parsed recipient contains ',', ';' or a newline |
| Email.SendEmailStatus | backend/server.js:1043-1162 | missing fields or an empty TO list give 400; otherwise a preflight refusal is answered by the error mapping of its message, a failed send by the mapping of its failure, and a send without failure by 200; 200 occurs exactly in that last case |
| Email.SentStatus | backend/server.js:1089-1162 | after the guards, a preflight refusal is answered by the error mapping of its message, a failed send by the mapping of its failure, and 200 occurs exactly when the preflight proceeds and the send does not fail |
| Email.EndpointRefusalsAre400 | backend/server.js:1072-1080 | through the endpoint every preflight refusal is a 400, since the endpoint has already refused an empty TO list |
| Text.TrimIsSlice | backend/server.js:290 | `trim` yields a slice of its input with no white space at either end |
| Text.Trim | backend/server.js:290 | trimming never lengthens a string (that it is a slice of its input, and idempotent, is stated by `Text.TrimIsSlice` and `Text.TrimIdempotent`) |
| Text.TrimKeepsAbsent | backend/server.js:1062-1063 | a character absent from a piece is absent from the trimmed piece |
| Text.TrimIdempotent | backend/server.js:290 | trimming twice is trimming once |
| Text.BlankIffAllSpace | frontend/src/components/ReleaseForm.js:129 | a string is blank when trimmed exactly when it is all white space |
| Text.UpperKeepsIdentity | backend/server.js:493 | an upper-cased name equals its original ignoring case, and upper-casing is idempotent |
| Text.SameIgnoringCaseIsEquivalence | backend/server.js:476 | comparing lower-cased names is an equivalence |
| Text.JoinSnoc | frontend/src/components/ReleaseForm.js:147-149 | joining one more part appends the separator and the part |
| Text.JoinSplit | backend/server.js:302 | splitting on a character and joining with it gives the string back |
| Text.Split | backend/server.js:1062 | there is always at least one piece, and no piece holds a separator |
| Text.SplitAtFirst | backend/server.js:302 | the piece before the first separator comes first |
| Text.NatToStringRoundTrip | frontend/src/components/ReleaseForm.js:144 | the decimal rendering of a count reads back as that count |
| Text.NatToStringInjective | frontend/src/components/ReleaseForm.js:144 | different counts render differently |
| Entities.IndexOfName | frontend/src/App.js:79-81 | the index of the first account with exactly that name, or -1 exactly when there is none |
| Entities.FindAccountByName | frontend/src/components/ReleaseTable.js:76 | None exactly when no account has the name; otherwise the first account with it |
| ReleaseForm.SetField | frontend/src/components/ReleaseForm.js:69-72 | the named field takes the value and every other field keeps its own |
| ReleaseForm.FromRelease | frontend/src/components/ReleaseForm.js:24-37 | the form shows the release's fields; an absent or null completion date or time taken shows as "" |
| ReleaseForm.LoadedDefects | frontend/src/components/ReleaseForm.js:39-53 | a release's defects array is used when present; otherwise a non-empty legacy text becomes one Medium/Open defect with an empty id; otherwise the list is kept |
| ReleaseForm.Changed | frontend/src/components/ReleaseForm.js:57-74 | choosing Completed keeps an entered completion date or fills in today; any other change sets only the named field |
| ReleaseForm.WithoutDefect | frontend/src/components/ReleaseForm.js:88-90 | every defect with the id is dropped; the rest keep their order, as a subsequence as long as the number of other defects, with every copy kept |
| ReleaseForm.SetDefectField | frontend/src/components/ReleaseForm.js:95 | only the named field of the defect changes |
| ReleaseForm.UpdatedDefects | frontend/src/components/ReleaseForm.js:92-98 | the length is kept, defects with other ids are unchanged, and matching ones change only the named field |
| ReleaseForm.Submit | frontend/src/components/ReleaseForm.js:112-156 | a non-Completed form always saves; a Completed one saves exactly when it has a completion date, a time taken and no blank defect id or description, and each refusal has its message; the saved data carries the defect count and the joined "id: description" entries |
| ReleaseForm.SubmittedCountMatches | frontend/src/components/ReleaseForm.js:144 | the saved `defects_raised` reads back as the number of saved defects |
| ReleaseForm.DetailsTextAppend | frontend/src/components/ReleaseForm.js:147-149 | one more defect appends "; " and its entry to `defect_details` |
| ReleaseForm.AddedDefectBlocksCompletion | frontend/src/components/ReleaseForm.js:77-86 | a freshly added defect blocks saving a Completed release until it is filled in |
| ReleaseForm.RemoveAddedRestores | frontend/src/components/ReleaseForm.js:77-90 | removing the defect just added restores the list |
| ReleaseForm.AbsentIdIsNoOp | frontend/src/components/ReleaseForm.js:88-98 | updating or removing an unused id changes nothing |
| ReleaseForm.FormState.constructor | frontend/src/components/ReleaseForm.js:4-20 | a new form is empty with status Scheduled, and has no defects |
| ReleaseForm.FormState.Load | frontend/src/components/ReleaseForm.js:22-55 | opening on a release fills the form from it and loads its defects |
| ReleaseForm.FormState.HandleChange | frontend/src/components/ReleaseForm.js:57-74 | the form becomes the changed form; the defects are kept |
| ReleaseForm.FormState.AddDefect | frontend/src/components/ReleaseForm.js:77-86 | exactly one new Medium/Open defect with empty fields is appended; the form is kept |
| ReleaseForm.FormState.RemoveDefect | frontend/src/components/ReleaseForm.js:88-90 | the defects with the id are dropped |
| ReleaseForm.FormState.UpdateDefect | frontend/src/components/ReleaseForm.js:92-98 | the matching defects change in the named field only |
| ReleaseForm.FormState.HandleSubmit | frontend/src/components/ReleaseForm.js:112-156 | a saved outcome carries the state's defects and status; a non-Completed status always saves |
| DefectsDashboard.Tagged | frontend/src/components/DefectsDashboard.js:22-26 | one listed defect per stored defect, each carrying its release's account and version |
| DefectsDashboard.Flatten | frontend/src/components/DefectsDashboard.js:21-30 | the number of listed defects is the sum of the releases' defect counts, a missing list counting 0 |
| DefectsDashboard.FlattenFromParents | frontend/src/components/DefectsDashboard.js:21-27 | every listed defect is a defect of some release, tagged with that release |
| DefectsDashboard.FlattenKeepsAll | frontend/src/components/DefectsDashboard.js:21-27 | every defect of every release is listed, tagged with its release |
| DefectsDashboard.CalculateDefectStats | frontend/src/components/DefectsDashboard.js:19-48 | the totals count the defects and the completed releases; the rate is 0 without completed releases and defects over releases otherwise |
| DefectsDashboard.BreakdownsSumToTotal | frontend/src/components/DefectsDashboard.js:36-47 | each of the three breakdowns adds up to `totalDefects` |
| DefectsDashboard.SeverityBreakdownKeys | frontend/src/components/DefectsDashboard.js:36-39 | a severity is a key exactly when a listed defect has it, and its count is the number of such defects |
| DefectsDashboard.StatusBreakdownKeys | frontend/src/components/DefectsDashboard.js:40-43 | the same for statuses |
| DefectsDashboard.AccountBreakdownKeys | frontend/src/components/DefectsDashboard.js:44-47 | the same for accounts |
| DefectsDashboard.OnlyCompletedContribute | frontend/src/components/DefectsDashboard.js:20-27 | every listed defect comes from a Completed release |
| DefectsDashboard.ApplyFiltersMatches | frontend/src/components/DefectsDashboard.js:53-86 | the filtered list is exactly the listed defects matching every set filter, in list order |
| DefectsDashboard.ApplyFilters | frontend/src/components/DefectsDashboard.js:53-86 | the filters keep at most the listed defects, and only listed ones |
| DefectsDashboard.ClearedFiltersShowAll | frontend/src/components/DefectsDashboard.js:63-85 | with no filter set all listed defects are shown |
| DefectsDashboard.ChangeFilter | frontend/src/components/DefectsDashboard.js:88-94 | only the named filter changes |
| DefectsDashboard.ClearFilters | frontend/src/components/DefectsDashboard.js:96-103 | all four filters become "" |
| App.HandleFilterMatches | frontend/src/App.js:58-97 | the filtered list is exactly the releases matching every set criterion, in stored order |
| App.HandleFilter | frontend/src/App.js:58-97 | the filters keep at most the releases, and only releases from the list |
| App.HandleFilterIsSubseq | frontend/src/App.js:69-92 | the result is an unsorted subsequence of the releases; every kept release matches, and every matching release is kept |
| App.NoCriteriaKeepsAll | frontend/src/App.js:60-67 | with no criterion set the list is the releases unchanged |
| App.StepIsFilter | frontend/src/App.js:71-90 | each conditional step is one filter |
| App.StepsCommute | frontend/src/App.js:69-90 | any two steps commute, and both orders keep the releases passing both |
| App.HandleFilterInAnyOrder | frontend/src/App.js:69-90 | applying the three steps in any order gives the filtered list |
| App.ValidHasDistinctNames | backend/server.js:599-601 | accounts the server keeps have pairwise different names |
| App.ClientFilterAgreesWithServer | frontend/src/App.js:77-84 | with distinct account names, the client's first-account region test gives the server's filter |
| App.AvailableTabs | frontend/src/App.js:125-137 | dashboard then releases always; the admin tab is offered exactly for an admin |
| App.RenderContent | frontend/src/App.js:139-181 | the admin panel exactly for an admin on the admin tab, access denied for anyone else there; the release table on the releases tab, read-only for a read-only user; the dashboard otherwise |
| App.AdminPanelOnlyForAdmins | frontend/src/App.js:161-171 | the admin panel shows only when its tab is offered, and always when it is |
| ReleaseManager.GetStatusStats | frontend/src/components/ReleaseManager.js:95-111 | four tiles in the order Scheduled, In Progress, Completed, Blocked, with their colors |
| ReleaseManager.StatusMultiplicity | frontend/src/components/ReleaseManager.js:96-99 | the fold's count for a status is the number of releases with it |
| ReleaseManager.StatusStatsCount | frontend/src/components/ReleaseManager.js:96-110 | each tile counts exactly the releases with its status, 0 when there are none |
| ReleaseManager.StatusStatsSum | frontend/src/components/ReleaseManager.js:96-110 | the four counts plus the releases of other statuses make up all releases, so their sum is at most the number of releases |
| ReleaseManager.BuildQueryParams | frontend/src/components/ReleaseManager.js:75-78 | the loop appends exactly the entries with a non-empty value, in order |
| ReleaseManager.QueryParamsAreSetEntries | frontend/src/components/ReleaseManager.js:76-78 | the query holds only set entries, in order, and every set entry |
| ReleaseManager.Param | backend/server.js:686 | a key that is not sent reads as "" |
| ReleaseManager.ParamIgnoresEmpty | backend/server.js:686 | dropping empty entries does not change what a key reads as, when keys are distinct |
| ReleaseManager.QueryRoundTrip | frontend/src/components/ReleaseManager.js:73-80 | the server reads back exactly the filters the client sent |
| AccountManager.FilteredAccountsSpec | frontend/src/components/AccountManager.js:81-83 | no region shows all accounts; otherwise exactly the accounts with that region, in order |
| AccountManager.FilteredAccounts | frontend/src/components/AccountManager.js:81-83 | the shown accounts are at most the accounts, and only accounts from the list |
| AccountManager.GetRegionStats | frontend/src/components/AccountManager.js:85-90 | five tiles in the fixed region order, each counting the accounts with that region |
| AccountManager.RegionStatsSum | frontend/src/components/AccountManager.js:85-90 | the tiles plus accounts of other regions make up all accounts, so the tiles sum to at most the number of accounts |
| AccountManager.ToggleProduct | frontend/src/components/AccountManager.js:154-167 | ticking appends the product; clearing drops every occurrence; the box then shows the new state |
| AccountManager.UncheckKeepsOthers | frontend/src/components/AccountManager.js:161-166 | clearing a box keeps every other product, in order |
| AccountManager.CheckThenUncheck | frontend/src/components/AccountManager.js:154-167 | ticking an unticked box and clearing it again restores the form |
| AccountManager.HandleEdit | frontend/src/components/AccountManager.js:46-54 | the form opens on the account's name and region; missing products read as [] |
| AccountManager.ResetForm | frontend/src/components/AccountManager.js:75-79 | the form closes and is emptied |
| AccountManager.ResetIdempotent | frontend/src/components/AccountManager.js:37-40 | resetting twice is resetting once, and resetting after an edit gives the initial state |
| ReleaseVersionManager.FromDraft | frontend/src/components/ReleaseVersionManager.js:99-102 | the new feature carries the clock's id and all the draft's fields |
| ReleaseVersionManager.LoadedFeatures | frontend/src/components/ReleaseVersionManager.js:59 | a missing feature list reads as []; otherwise one entry per stored feature |
| ReleaseVersionManager.WithoutFeature | frontend/src/components/ReleaseVersionManager.js:116-121 | every feature with the id is dropped; the others keep their order, as a subsequence as long as the number of other features, with every copy kept |
| ReleaseVersionManager.RemoveAddedRestores | frontend/src/components/ReleaseVersionManager.js:97-121 | removing a feature just added restores the list |
| ReleaseVersionManager.RemoveAbsentIsNoOp | frontend/src/components/ReleaseVersionManager.js:116-121 | removing an unused id changes nothing |
| ReleaseVersionManager.FeatureTypeIcon | frontend/src/components/ReleaseVersionManager.js:123-138 | each known type has its icon, and anything else has the default icon |
| ReleaseVersionManager.PriorityIcon | frontend/src/components/ReleaseVersionManager.js:140-153 | each known priority has its icon, and anything else has the default icon |
| ReleaseVersionManager.TypeIconsIdentify | frontend/src/components/ReleaseVersionManager.js:123-138 | different known types show different icons, and only unknown types show the default |
| ReleaseVersionManager.PriorityIconsIdentify | frontend/src/components/ReleaseVersionManager.js:140-153 | different known priorities show different icons, and only unknown ones show the default |
| ReleaseVersionManager.VersionEditor.constructor | frontend/src/components/ReleaseVersionManager.js:4-16 | closed form, nothing edited, empty form, default draft |
| ReleaseVersionManager.VersionEditor.AddFeature | frontend/src/components/ReleaseVersionManager.js:97-114 | with a draft whose trimmed name and description are non-empty, the feature is appended last and the draft is reset to Enhancement/Medium; otherwise nothing changes |
| ReleaseVersionManager.VersionEditor.RemoveFeature | frontend/src/components/ReleaseVersionManager.js:116-121 | only the feature list changes, to the list without the id |
| ReleaseVersionManager.VersionEditor.HandleEdit | frontend/src/components/ReleaseVersionManager.js:54-62 | the form opens on the version, missing features read as [] |
| ReleaseVersionManager.VersionEditor.Reset | frontend/src/components/ReleaseVersionManager.js:85-95 | the form closes and the form and the draft are emptied |
| RegionManager.WithoutFeature | frontend/src/components/RegionManager.js:108-113 | every feature with the id is dropped; the others keep their order, as a subsequence as long as the number of other features, with every copy kept |
| RegionManager.RemoveAddedRestores | frontend/src/components/RegionManager.js:91-113 | removing a feature just added restores the list |
| RegionManager.RegionEditor.constructor | frontend/src/components/RegionManager.js:4-14 | closed form, nothing edited, empty form and draft |
| RegionManager.RegionEditor.AddFeature | frontend/src/components/RegionManager.js:91-106 | with a draft whose trimmed name and description are non-empty, the feature is appended last and the draft emptied; otherwise nothing changes |
| RegionManager.RegionEditor.RemoveFeature | frontend/src/components/RegionManager.js:108-113 | only the feature list changes, to the list without the id |
| RegionManager.RegionEditor.HandleEdit | frontend/src/components/RegionManager.js:50-58 | the form opens on the version, missing features read as [] |
| RegionManager.RegionEditor.Reset | frontend/src/components/RegionManager.js:81-89 | the form closes and the form and the draft are emptied |
| ReleaseTable.StatusClass | frontend/src/components/ReleaseTable.js:18-31 | Scheduled, In Progress, Done and Canceled get their classes, anything else "" |
| ReleaseTable.StatusClassOfUsedStatuses | frontend/src/components/ReleaseTable.js:18-31 | Completed and Blocked get no class, and classed statuses get different classes |
| ReleaseTable.GetAccountRegion | frontend/src/components/ReleaseTable.js:75-78 | the region of the first account with exactly that name, or "" when there is none |
| ReleaseTable.AccountRegionOfNamedAccount | frontend/src/components/ReleaseTable.js:75-78 | with distinct names, a row shows its own account's region |
| ReleaseTable.UniqueRegions | frontend/src/components/ReleaseTable.js:80-82 | no duplicates, no empty values, and a region is listed exactly when some account has it |
| ReleaseTable.UniqueRegionsOrder | frontend/src/components/ReleaseTable.js:80-82 | regions are listed in the order of their first occurrence |
| Seqs.FilterKeepsCopies | backend/server.js:572-574 | a `filter` keeps every copy of each element it accepts |
| Seqs.Dedupe | frontend/src/components/ReleaseTable.js:80-82 | `[...new Set(xs)]` holds each value of the input exactly once and nothing else |
| ReleaseTable.HandleFilterChange | frontend/src/components/ReleaseTable.js:48-59 | only the named filter changes |
| ReleaseTable.ClearFilters | frontend/src/components/ReleaseTable.js:61-73 | all three filters become "" |
| ReleaseTable.ClearShowsAll | frontend/src/components/ReleaseTable.js:61-73 | the cleared filters handed to the app show every release |
| ReleaseTable.ChangeThenUnset | frontend/src/components/ReleaseTable.js:48-59 | setting a filter and unsetting it again gives back the filters and the list |
| ViewerReleaseTable.GetFilterOptions | frontend/src/components/ViewerReleaseTable.js:21-40 | fixed product, environment and status lists; the version names in input order; the de-duplicated non-empty regions |
| ViewerReleaseTable.StaticOptionsFixed | frontend/src/components/ViewerReleaseTable.js:23-25 | the fixed lists do not depend on the data |
| ViewerReleaseTable.AccountRegionChoices | frontend/src/components/ViewerReleaseTable.js:31 | every non-empty account region is a choice, each once, and "" is not |
| ViewerReleaseTable.StatusClass | frontend/src/components/ViewerReleaseTable.js:42-55 | Scheduled, In Progress and Done get their classes, Blocked the cancelled class, anything else "" |
| ViewerReleaseTable.HandleFilterChange | frontend/src/components/ViewerReleaseTable.js:72-82 | only the named filter of the five changes |
| ViewerReleaseTable.ClearFilters | frontend/src/components/ViewerReleaseTable.js:84-97 | all five filters become "" |
| ViewerReleaseTable.ClearAfterChanges | frontend/src/components/ViewerReleaseTable.js:84-97 | clearing after a change gives the empty filters |

## Left out

- File I/O: reading, writing and initialising the JSON files is not modelled; each collection is an in-memory sequence in `Server.Store`. A failed write is only logged by the server (backend/server.js:376-382), so a reply can report success for a change that was not saved. The model does not capture this.
- The lost-update race between a handler's read and its write of a file: concurrency is not modelled.
- Express routing, request parsing and the client's `fetch` calls: handlers are methods over the collections, and components call the model's functions directly.
- React rendering, JSX, `alert` and `window.confirm` are left out. Alerts appear only as the `Outcome` of `ReleaseForm.Submit`.
- The HTML and text e-mail templates, the nodemailer transport and the actual sending are left out, because they are string building and an external library. The outcome of the send is the parameter `sendFailure` of `Email.SendEmailStatus`.
- The second, diagnostic e-mail endpoint (backend/server.js:1195 onwards) repeats `parseRecipients`; it is not modelled separately.
- The `localeCompare` sorts of `GET /api/accounts` and `GET /api/regions` are left out, because their collation depends on the locale.
- Dates: `new Date(...)` parsing is the parameter `dateKey`, and the current time is `now`. An unparsable date (NaN in JavaScript) is not modelled.
- Listing.SortDesc: it is a stable insertion sort standing for the engine's `Array.prototype.sort`. The model states the result, not the engine's algorithm.
- Clock values: the server computes `Date.now()` once per feature, and the model takes one `nowMs`, so all new feature ids are `nowMs` plus the index.
- Server.NewRelease: `POST /api/releases` reads the clock twice, once for `created_at` and once for `updated_at` (backend/server.js:760-761), so the two can differ by a tick. The model stores one `now` in both.
- Listing.ComputeStats: a release stored without a `status` property, which an update can produce because it stores the status as sent (backend/server.js:803), is counted by `/api/stats` under the key "undefined" (backend/server.js:856). Missing properties are "" in this model, so such a release is counted under "".
- Text.Lower: upper- and lower-casing cover ASCII letters only. JavaScript's full Unicode case mapping is not modelled.
- DefectsDashboard.CalculateDefectStats: `toFixed(2)` is not modelled; the rate is the pair `Ratio(defects, releases)`.
- Authentication and Login.js: the user's role is the parameter `role`, and the demo credentials and local storage are not modelled.
- `generateDefectId` is left out, because it is random and nothing calls it.
- Dashboard.js and AdminPanel.js only fetch and render, so they are left out.
- Route ids: `parseInt` of a non-numeric id gives NaN in the server, which matches no record and so gives 404 or a no-op delete. The model takes the id as an integer.
- A request without `name` makes the server's `name.toLowerCase()` throw and answer 500; the model's name is always a string.
- Repository.Referenced: when the id is absent, the server compares each reference with `undefined`. A release lacking the property matches, and refuses the delete. Missing properties are "" in this model, so that refusal has no counterpart.
- Server.Store.PutAccount: accounts renamed by an update leave releases referring to the old name. The model states the stored state and does not repair or flag such references.
- Server.UpdatedRelease: the status of an update is stored as sent, with no "Scheduled" default. This is modelled, not corrected.
- Email.DomainPart: it is modelled by a split on '@', as the code does. Only one '@' can occur on a well-shaped address (`Email.DomainPartOfShape`).
- Email.ParseRecipients / Email.SendEmailStatus: a recipient array is passed through unchanged (backend/server.js:1065-1066). An element that is not a string, such as `42` or `null`, then makes `email.trim()` throw during validation (backend/server.js:290), and the endpoint answers 500 "Failed to send email" (backend/server.js:1127-1170). The model's `RecipientsField.Items` holds strings only, so it excludes that case and never gives this 500.
- Server.ProcessFeatures / Server.Store.PostVersion / Server.Store.PutVersion: the `features = []` default replaces only an absent field (backend/server.js:470, 510). A `features` that is `null` or any non-array makes `features.map` throw (backend/server.js:485, 532), and POST or PUT /api/regions answers 500. The model's `features` is always a sequence, so it excludes that case and never gives this 500.
- ReleaseForm.Submit: a defect without a `defect_id` property makes the client's `trim()` throw. The model's defects always carry the field.
- ReleaseForm.FormState.Load: a release with neither `defects` nor `defect_details` keeps the defects already in the form, as the effect does. This is modelled, not changed.
- `URLSearchParams`: percent-encoding and serialising to a string are left out. `ReleaseManager.BuildQueryParams` yields the ordered key-value pairs, and `ReleaseManager.ReadQuery` reads them back.
- ReleaseManager.Param: its contract states only that an absent key reads as "". The first-match reading is used through `ReleaseManager.ParamIgnoresEmpty` and `ReleaseManager.QueryRoundTrip`.
- ReleaseTable.HandleFilterChange: `onFilter` is taken to be always given. The filters handed on are the result of the function.
- ReleaseVersionManager.LoadedFeatures: features loaded from the server have no `type` or `priority`. They read as "" and so show the default icons.
