# Nexus CRM Pro: the local-first lead cache and the pages' list rules

This project models the core of Nexus CRM Pro, a single-page CRM.

The main part is `StorageEngine` (lib/storage.ts). It is a cache kept in the browser's string-keyed store, and it holds three lists:

- the leads;
- a tombstone list of lead ids deleted on this device;
- the categories.

Its operations are:

- `getLeads` reads the live leads;
- `mergeLeads` merges backend rows into the local leads;
- `syncLeads` is that merge written back to the store;
- `saveLead`, `updateLead` and `deleteLead` upsert, patch and delete a lead;
- `getCategories` seeds the default categories, and `saveCategory` and `deleteCategory` append and remove one.

The model is the class `Storage.StorageEngine`. Each stored key is a field of type `Stored<T>`: missing, unparsable, or a parsed list. The leads list may hold `null` entries (`Entry.Null`). The engine's methods read and write those fields, and their contracts give every new field value. `mergeLeads` is a method with the source's two loops. Its result is specified by the function `LeadMerge.MergedLeads`, and the merge properties are proved about that function:

- the result never holds a tombstoned id;
- ids are unique, and they are the union of the live local and remote ids;
- the result is newest first;
- on a shared id the remote row wins;
- merging the same rows again changes nothing.

The second part is the pure rules and list updates inside the pages:

- the dashboard totals and pie chart (`Dashboard`);
- the reports numbers (`Reports`);
- the pipeline columns, move menu, status move and delete (`Pipeline`, plus `LeadLists` for the list updates the pages share with the store);
- the expiry monitor's day rules, badges and ordering (`Monitor`);
- the leads search, the saved record, submit and delete (`Leads`);
- the task toggle, counts and list updates (`Tasks`);
- the company search and list updates (`Companies`).

Each page that changes state is a class. Its fields are the page's lists, and a `const` field holds the store it writes through. A backend call is a parameter: either the rows it returned (`Option`) or a `remoteFailed` flag. `Text` models `toLowerCase` and `includes`. `Rounding` models `Math.round` of a ratio.

In `mergeLeads` the local leads go into the map first and the remote rows are set afterwards (lib/storage.ts:43-52). So on an id collision the **remote** record wins, because the second `set` on a key replaces the first. The model follows this order (`LeadMerge.RemoteWins`, `LeadMerge.RemoteRecordReplacesLocal`).

## Model

| member | source | states |
|---|---|---|
| Types.SpreadStatusOnly | lib/storage.ts:78 | spreading the patch `{ status }` over a lead changes its status and no other field |
| Storage.GetLocal | lib/storage.ts:12-20 | a parsed key reads as its list; a missing or unparsable key reads as the empty list |
| Storage.Visible | lib/storage.ts:34 | a lead is kept exactly when it is a non-null entry with a non-empty id that is not tombstoned; never longer than the stored list |
| Storage.StorageEngine.GetLeads | lib/storage.ts:31-35 | every lead returned has a non-empty id outside the tombstones; every such stored lead is returned; an unparsed store gives [] |
| Storage.VisibleEntries | lib/storage.ts:58-61 | a list of live leads written to the store reads back unchanged |
| Storage.Without | lib/storage.ts:84 | keeps exactly the non-null entries whose id differs from the given one |
| Storage.WithoutConcat | lib/storage.ts:66 | the removal filter distributes over concatenation, so the other entries keep their relative order |
| Storage.WithoutKeepsOthers | lib/storage.ts:84 | removing an id that no entry carries, from a list without nulls, changes nothing |
| Storage.Upserted | lib/storage.ts:64-67 | the saved lead is first, no later entry has its id, and the later entries are exactly the other non-null entries |
| Storage.Patched | lib/storage.ts:76-80 | the length is kept; entries with the id get the patch spread over them and every other entry, nulls included, is untouched |
| Storage.PatchedAbsent | lib/storage.ts:78 | patching an id that no entry carries leaves the list unchanged |
| Storage.Erase | lib/storage.ts:70 | the id is no longer in the tombstone list and every other id keeps its count |
| Storage.WithTombstone | lib/storage.ts:88-91 | the id is tombstoned once if it was absent and keeps its count otherwise; other ids are untouched |
| Storage.TombstonesStayDistinct | lib/storage.ts:82-92 | a tombstone list without duplicates stays without duplicates after a delete or a save, and a deleted id occurs exactly once |
| Storage.WithTombstoneIdempotent | lib/storage.ts:88-91 | a repeated delete leaves the tombstone list unchanged |
| Storage.CategoriesView | lib/storage.ts:94-106 | the categories read are never empty, and a non-empty stored list is returned as it is |
| Storage.DropCategory | lib/storage.ts:116 | keeps exactly the categories with a different id |
| Storage.DefaultsOnEmptyStore | lib/storage.ts:97-101 | an empty store reads as the three defaults with ids '1', '2', '3' |
| Storage.StorageEngine.MergeLeads | lib/storage.ts:37-56 | the two loops compute `MergedLeads` of the visible leads; the result has unique ids, is newest first, holds no tombstoned or empty id, and its ids are the union of the local and live remote ids |
| Storage.StorageEngine.SyncLeads | lib/storage.ts:58-62 | returns the merge and, when the store accepts writes, stores exactly it, so `getLeads` then returns it |
| Storage.StorageEngine.SaveLead | lib/storage.ts:64-74 | returns the lead; the stored list becomes the upsert with the lead first; the id's tombstones are removed |
| Storage.StorageEngine.UpdateLead | lib/storage.ts:76-80 | the stored list becomes the patched list, of the same length |
| Storage.StorageEngine.DeleteLead | lib/storage.ts:82-92 | no stored lead keeps the id; the id is appended to the tombstones only if it was not there |
| Storage.StorageEngine.GetCategories | lib/storage.ts:94-106 | returns the stored categories, or the defaults for an empty list, which are then written back |
| Storage.StorageEngine.SaveCategory | lib/storage.ts:108-113 | stores the (possibly seeded) list with the category appended, without de-duplicating |
| Storage.StorageEngine.DeleteCategory | lib/storage.ts:115-118 | stores the (possibly seeded) list without the id; no stored category keeps it |
| Storage.SyncLeadsTwice | lib/storage.ts:58-62 | two `syncLeads` calls with the same rows return the same list |
| Storage.RecreateAfterDelete | lib/storage.ts:64-92 | save, delete and save again under one id: the id is not tombstoned and the last record is the first live lead |
| LeadMerge.MapSet | lib/storage.ts:44-50 | after `Map.set` the row is in the map, no other value is new, and the map grows by at most one entry |
| LeadMerge.MapSetFacts | lib/storage.ts:40-52 | `Map.set` keeps ids unique: a new key is appended, an existing key's value is replaced in place |
| LeadMerge.AbsorbFacts | lib/storage.ts:43-52 | after setting a list into a map, each id of the list maps to the last row with it and every other key keeps its value |
| LeadMerge.Keyed | lib/storage.ts:44 | keeps exactly the leads with a non-empty id |
| LeadMerge.Live | lib/storage.ts:49 | keeps exactly the rows with a non-empty id that is not tombstoned |
| LeadMerge.SortNewestFirst | lib/storage.ts:55 | the sort returns a permutation of its input, newest first |
| LeadMerge.SortNewestFirstFacts | lib/storage.ts:55 | the sort returns a permutation, newest first, with the same ids |
| LeadMerge.SortNewestFirstSorted | lib/storage.ts:55 | a list already newest first is returned unchanged |
| LeadMerge.MergedLeads | lib/storage.ts:37-56 | the result is a newest-first rearrangement of the map values after the local pass and the remote pass |
| LeadMerge.MergedLeadsFacts | lib/storage.ts:37-56 | unique non-empty ids, newest first, ids = local ∪ live remote; a remote id's record is the last remote row with it, any other id's is the last local lead with it; a tombstoned id only ever comes from the local side |
| LeadMerge.TombstoneSupremacy | lib/storage.ts:38-52 | with tombstone-free local leads, as `getLeads` gives, no merge result carries a tombstoned id, whatever the remote rows |
| LeadMerge.RemoteWins | lib/storage.ts:43-52 | a live remote row's id is in the result, and the result's record for that id is a remote row |
| LeadMerge.LocalOnlyKept | lib/storage.ts:43-45 | a local lead whose id the remote side does not send survives unchanged |
| LeadMerge.MergeIdempotent | lib/storage.ts:58-62 | merging the same rows into a merge result gives that result back |
| LeadMerge.NewerFirstExample | lib/storage.ts:54-55 | with nothing local, rows x then y, y newer, come back as [y, x] |
| LeadMerge.DeletedStaysOutExample | lib/storage.ts:48-52 | a tombstoned lead sent by the backend does not come back |
| LeadMerge.RemoteRecordReplacesLocal | lib/storage.ts:43-52 | a local and a remote lead with one id merge to just the remote one |
| Rounding.RoundPercentBounds | pages/Dashboard.tsx:134 | a share of a whole rounds to a percentage in 0..100: 0 for none, 100 for all |
| Rounding.RoundDiv | pages/Reports.tsx:45 | `Math.round(n / d)` is the integer r nearest to n/d, a tie going up: r - 1/2 <= n/d < r + 1/2 |
| Rounding.RoundPercent | pages/Dashboard.tsx:134 | `Math.round((n / d) * 100)` is the integer nearest to 100n/d, a tie going up |
| Rounding.RoundDivExact | pages/Reports.tsx:45 | a whole multiple rounds to itself: `Math.round((v * n) / n)` is v |
| Dashboard.ValidLeads | pages/Dashboard.tsx:92 | keeps exactly the object entries, never more than there are |
| Dashboard.StatusCountsSumToTotal | pages/Dashboard.tsx:100-103 | the six per-status counts add up to the number of leads |
| Dashboard.StatusKeysFacts | pages/Dashboard.tsx:100-103 | the keys start with those seen before; each status appears once; a key is present exactly when seen or held by some lead; the new keys are ordered by the index of the first lead with that status |
| Dashboard.StatusesIn | pages/Dashboard.tsx:100-103 | a status is in the set exactly when some lead has it |
| Dashboard.StatusKeysDistinct | pages/Dashboard.tsx:100-103 | grouping by status never produces the same key twice |
| Dashboard.StatusKeysMembers | pages/Dashboard.tsx:100-103 | a key is present exactly when it was already seen or some lead has that status |
| Dashboard.StatusKeysOrder | pages/Dashboard.tsx:100-103 | among the keys added after those seen before, a key comes earlier exactly in the order of the first lead that has it (insertion order of the grouping object) |
| Dashboard.StatusKeysOrderAt | pages/Dashboard.tsx:100-103 | for one pair of keys added after those seen before, the earlier key's first lead comes before the later key's |
| Dashboard.FirstIndex | pages/Dashboard.tsx:100-103 | the index of the first lead with a status: that lead has it and no earlier one does, or the length when none does |
| Dashboard.StatusKeys | pages/Dashboard.tsx:100-103 | the keys grouped so far stay as a prefix, and each lead adds at most one key |
| Dashboard.StatusLabel | pages/Dashboard.tsx:113-123 | every status has a non-empty label, so the fallback to the raw status never applies |
| Dashboard.StatusColor | pages/Dashboard.tsx:105-125 | every status has a `#rrggbb` colour, so the fallback colour never applies |
| Dashboard.Slices | pages/Dashboard.tsx:122-126 | one slice per key, with that status's label, colour and rounded share |
| Dashboard.ShareBounds | pages/Dashboard.tsx:124 | each slice value is within 0..100 |
| Dashboard.SlicesFacts | pages/Dashboard.tsx:122-126 | one slice per key, in key order, with that key's label and colour and a share in 0..100 |
| Dashboard.CalculateStatsFacts | pages/Dashboard.tsx:89-135 | a non-array leaves the view unchanged; otherwise the total is the object count, active counts new, contacted and proposal, sold counts won, expired counts lost and expired, active + sold + expired = total, and the conversion is 0 without leads and otherwise the rounded share of won within 0..100 |
| Dashboard.ChartDataFacts | pages/Dashboard.tsx:122-126 | no slices without leads; otherwise one slice per distinct status present, in order of the first lead with that status, with its label, colour and a value in 0..100 |
| Dashboard.ChartData | pages/Dashboard.tsx:122-126 | no slices without leads; otherwise one slice per status key, never more than there are leads |
| Dashboard.CalculateStats | pages/Dashboard.tsx:89-136 | a non-array leaves the view as it was; otherwise the total is at most the entries given and the chart has at most one slice per lead |
| Reports.CountRows | pages/Reports.tsx:40 | a status count never exceeds the row count, so won ≤ total |
| Reports.CountOpen | pages/Reports.tsx:46 | the count of rows neither won nor lost never exceeds the row count |
| Reports.WonRevenue | pages/Reports.tsx:39 | the revenue of rows with non-negative values is non-negative |
| Reports.WonRevenueConcat | pages/Reports.tsx:39 | the sum is a fold: the revenue of two result sets together is the sum of their revenues |
| Reports.OpenWonLostPartition | pages/Reports.tsx:46 | active + won + lost = total |
| Reports.OpenIncludesExpired | pages/Reports.tsx:46 | the active count is new + contacted + proposal + expired, so expired leads count as active |
| Reports.NoWonNoRevenue | pages/Reports.tsx:39 | without won rows the revenue is 0 |
| Reports.ConversionBounds | pages/Reports.tsx:44 | the conversion of a non-empty result is within 0..100 |
| Reports.FetchStats | pages/Reports.tsx:37-49 | no data leaves the stats unchanged; otherwise revenue is the won value, conversion 0 when empty and the rounded won share in 0..100 otherwise, average ticket 0 without won leads and the rounded mean otherwise, and active + won + lost = total |
| Reports.EmptyReport | pages/Reports.tsx:37-49 | an empty result gives all-zero stats |
| Reports.UniformTicket | pages/Reports.tsx:44-45 | won leads all worth v give an average ticket of v and a conversion of 100 |
| Pipeline.StageLeads | pages/Pipeline.tsx:109 | a column holds exactly the leads with its status |
| Pipeline.MoveTargets | pages/Pipeline.tsx:151 | the move menu holds exactly the stages whose id differs from the lead's status |
| Pipeline.StageIdsDistinct | pages/Pipeline.tsx:20-26 | no two columns share a status |
| Pipeline.ColumnOfLead | pages/Pipeline.tsx:20-26 | a lead is in a column exactly when the column's id is its status, and in none exactly when it is expired |
| Pipeline.AtMostOneColumn | pages/Pipeline.tsx:108-109 | a lead found in two columns found it in the same column |
| Pipeline.MoveTargetsFacts | pages/Pipeline.tsx:151 | the menu has four stages, or all five for an expired lead |
| Pipeline.PipelinePage.FetchLeads | pages/Pipeline.tsx:37-50 | the board shows the stored leads, or the merge `syncLeads` stores when the backend answered |
| Pipeline.PipelinePage.UpdateLeadStatus | pages/Pipeline.tsx:52-61 | the store is patched with `{ status }` and the board's list gets the new status on that id; the backend's answer is ignored |
| Pipeline.PipelinePage.HandleDelete | pages/Pipeline.tsx:63-80 | a cancel or a backend error changes nothing; otherwise the store deletes and tombstones the id and the board drops it; the tombstone key gains the id only when the store accepts writes and the id was absent, and is otherwise untouched |
| Pipeline.MoveKeepsBoardInStep | pages/Pipeline.tsx:54-55 | a board that shows the store's records still does after a status move |
| Pipeline.DeleteKeepsBoardInStep | pages/Pipeline.tsx:75-76 | a board that shows the store's records still does after a delete, and no card keeps the id |
| LeadLists.SetStatus | pages/Pipeline.tsx:55 | the list keeps its length and every lead its id |
| LeadLists.SetStatusOnlyStatus | pages/Pipeline.tsx:55 | only the leads with the id change, and only in their status |
| LeadLists.SetStatusMirrorsStore | pages/Pipeline.tsx:54-55 | the board's status change is the store's `updateLead(id, { status })` on the same records |
| LeadLists.DropId | pages/Pipeline.tsx:76 | keeps exactly the leads with a different id |
| LeadLists.DropIdMirrorsStore | pages/Pipeline.tsx:75-76 | the list removal drops the same records, in the same order, as the store's `deleteLead` |
| LeadLists.DropIdIdempotent | pages/Leads.tsx:122 | removing an id twice is removing it once |
| LeadLists.PutFirst | pages/Leads.tsx:179-182 | the saved lead is first, and the rest are exactly the other leads without its id |
| LeadLists.PutFirstMirrorsStore | pages/Leads.tsx:178-182 | the page's upsert is the store's `saveLead` on the same records |
| Monitor.RowBadge | pages/Monitor.tsx:157-163 | `Expirado` exactly when expired; `Vence Hoje` exactly when due today; `Ativo` exactly when neither |
| Monitor.Day | pages/Monitor.tsx:65-68 | the day number d of a timestamp t satisfies d·86400000 <= t < (d+1)·86400000, the midnight `setHours(0, 0, 0, 0)` gives |
| Monitor.IsExpiringToday | pages/Monitor.tsx:63-70 | true exactly when the date lies between today's midnight and the next one; false without a date |
| Monitor.IsExpired | pages/Monitor.tsx:72-79 | true exactly when the date lies before today's midnight; false without a date |
| Monitor.UndatedIsActive | pages/Monitor.tsx:63-79 | a lead without a date is neither expired nor due and shows as active |
| Monitor.ExpiredExcludesDueToday | pages/Monitor.tsx:63-79 | expired and due today never hold together |
| Monitor.BadgeByDay | pages/Monitor.tsx:63-79 | only the day of the date and of now count, never the hour |
| Monitor.ConsecutiveDays | pages/Monitor.tsx:63-79 | on day d a lead dated on day d-1 has expired, one dated at the start of day d is due, and one dated at its last millisecond has not expired |
| Monitor.CompareAsWritten | pages/Monitor.tsx:81-85 | negative exactly when `a` is dated and `b` is undated or later; positive exactly when `a` is undated or `b` is dated earlier |
| Monitor.CompareExpiry | pages/Monitor.tsx:81-85 | negative exactly when `a` is dated and `b` is undated or later; zero exactly when both are undated or dated alike |
| Monitor.CompareAsWrittenInconsistent | pages/Monitor.tsx:81-85 | the comparator as written says each of two undated leads sorts after the other |
| Monitor.CompareExpiryConsistent | pages/Monitor.tsx:81-85 | the corrected comparator is antisymmetric and agrees with the page's whenever one lead is dated |
| Monitor.MonitorOrder | pages/Monitor.tsx:81-85 | the monitor list is a permutation of the leads, dated leads by non-decreasing date and none after an undated one |
| Monitor.MonitorOrderFacts | pages/Monitor.tsx:81-85 | the monitor lists a permutation of the leads, dated ones by non-decreasing date and before every undated one |
| Monitor.UndatedKeepOrder | pages/Monitor.tsx:81-85 | two undated leads keep their order |
| Text.Lower | pages/Leads.tsx:198 | same length; each character lower-cased on its own |
| Text.LowerIdempotent | pages/Companies.tsx:61 | lower-casing twice is lower-casing once |
| Text.Contains | pages/Leads.tsx:198 | true exactly when the term occurs at some position |
| Text.ContainsEmpty | pages/Companies.tsx:60-63 | every string includes the empty string |
| Text.ContainsSelf | pages/Companies.tsx:62 | every string includes itself |
| Leads.FilterLeads | pages/Leads.tsx:196-203 | keeps exactly the leads with a non-empty name matching the search on the name (ignoring case) or the non-empty phone, and matching the category filter |
| Leads.MatchesFilter | pages/Leads.tsx:196-202 | a lead without a name never matches, and a set category filter only passes leads of that category |
| Leads.EmptyFilterKeepsNamed | pages/Leads.tsx:196-203 | an empty search with no category filter keeps exactly the named leads |
| Leads.SearchIgnoresNameCase | pages/Leads.tsx:198 | for a lead without a phone, a term and its lower-case form select alike |
| Leads.NameMatchesItself | pages/Leads.tsx:197-199 | a named lead matches the search for its own name |
| Leads.FindCategory | pages/Leads.tsx:146 | nothing is found exactly when no category has the id; otherwise the first category in the list with that id |
| Leads.LeadPayload | pages/Leads.tsx:135-147 | create: fresh id, status new, now; edit: the form's id and the selection's status and creation time when there is a selection; value 0 when unparsable; no category id for ''; the found category; e-mail and phone are the form's |
| Leads.CreatedLeadIsNew | pages/Leads.tsx:136-145 | a created lead has the fresh id and status new |
| Leads.EditKeepsIdentity | pages/Leads.tsx:135-182 | editing the selected lead under its id keeps id, status and creation time, and the list then holds it in place of the old record |
| Leads.LeadsPage.HandleSubmit | pages/Leads.tsx:130-194 | no user or a backend error changes nothing; otherwise the payload is saved, put first in the list and selected, and its id is untombstoned; when the store accepts writes the tombstone key loses only the saved id and keeps every other tombstone, and otherwise it is untouched |
| Leads.LeadsPage.HandleDeleteLead | pages/Leads.tsx:109-128 | a cancel or a backend error changes nothing; otherwise store and list lose the id, it is tombstoned, and a selection of it is cleared; the tombstone key gains the id only when the store accepts writes and the id was absent, and is otherwise untouched |
| Leads.SubmitKeepsListInStep | pages/Leads.tsx:178-185 | a list that shows the store's records still does after a submit, with the selection first |
| Tasks.ToggledStatus | pages/Tasks.tsx:67 | completed goes to pending, any other status to completed, never to in progress |
| Tasks.ToggleTwice | pages/Tasks.tsx:67 | two toggles restore pending or completed; in progress ends pending |
| Tasks.SetTaskStatus | pages/Tasks.tsx:74 | the list keeps its length and every task its id |
| Tasks.SetTaskStatusOnlyStatus | pages/Tasks.tsx:74 | only the tasks with the id change, and only in their status |
| Tasks.DropTask | pages/Tasks.tsx:81 | keeps exactly the tasks with a different id |
| Tasks.DropTaskAbsent | pages/Tasks.tsx:81 | removing an absent id changes nothing |
| Tasks.SummaryCountsBound | pages/Tasks.tsx:174-178 | pending + completed ≤ the task count; with in progress they make it up |
| Tasks.CountTasks | pages/Tasks.tsx:174-178 | a status count never exceeds the number of tasks |
| Tasks.ProgressDenominator | pages/Tasks.tsx:183 | the divisor is never 0 and is the task count when there are tasks |
| Tasks.ProgressInRange | pages/Tasks.tsx:174-183 | the completed count never exceeds the divisor, so the bar stays within 0..100% |
| Tasks.InsertRequest | pages/Tasks.tsx:48-54 | the row sent carries the form's fields, the user and status pending |
| Tasks.TasksPage.HandleAddTask | pages/Tasks.tsx:43-64 | no user sends nothing; a returned row is appended and the form reset to empty with priority medium; an error changes nothing |
| Tasks.TasksPage.ToggleTaskStatus | pages/Tasks.tsx:66-76 | the status sent is toggled from the task given; on success the tasks with its id take it, on error nothing changes |
| Tasks.TasksPage.DeleteTask | pages/Tasks.tsx:78-83 | on success exactly the tasks with the id go; on error nothing changes |
| Tasks.ToggleCompleted | pages/Tasks.tsx:66-76 | toggling a completed task in the list makes it pending and leaves tasks with other ids alone |
| Companies.FilterCompanies | pages/Companies.tsx:60-63 | keeps exactly the companies whose name contains the term ignoring case, or whose non-empty CNPJ contains it exactly |
| Companies.CompanyMatches | pages/Companies.tsx:60-63 | an empty search matches every company |
| Companies.EmptySearchKeepsAll | pages/Companies.tsx:60-63 | an empty search keeps every company, in order |
| Companies.NameSearchIgnoresCase | pages/Companies.tsx:61 | without a CNPJ only the name is searched, and the term's case does not matter |
| Companies.CnpjFindsItself | pages/Companies.tsx:62 | a company is found by its own CNPJ |
| Companies.DropCompany | pages/Companies.tsx:57 | keeps exactly the companies with a different id |
| Companies.CompaniesPage.HandleAddCompany | pages/Companies.tsx:36-52 | the form is sent; a returned row is appended and the form reset to all empty; an error changes nothing |
| Companies.CompaniesPage.DeleteCompany | pages/Companies.tsx:54-58 | a confirmed delete the backend accepts drops exactly the companies with the id; otherwise nothing changes |

## Left out

- A stored key whose JSON parses to something other than an array (for example `null`) is not modelled: `Stored` has no case for it. In the source, `getLocal` returns that value and the callers then throw at `.filter`/`.map`. The engine itself only ever writes arrays.
- The backend (Supabase queries, inserts, auth) is not modelled. A call is a parameter: the rows it returned, `None` on an error, or a `remoteFailed` flag.
- Webhook dispatch (lib/webhook.ts) and the Gemini calls (lib/gemini.ts) are left out: they are network I/O and a foreign library.
- UI is left out: markup, charts, `confirm` (a `confirmed` parameter), `alert`, loading flags, modal state, React effects, and src/main.tsx.
- JSON (de)serialisation: each key is a typed field, and a parse failure is `Unparsable`. A stored array holding values other than objects and `null` (numbers, strings) is not modelled.
- A failing `setItem` is modelled by one `writable` flag: when it is false, every write of the engine is dropped. Two writes inside one call that fail independently (quota reached between them) are not modelled.
- Money is whole numbers, not floats: `parseFloat`, `Number(...) || 0` for NaN, `toLocaleString`, and float rounding at .5 boundaries. `Math.round(p/q)` is exact rounding of a rational.
- Dates are integer millisecond timestamps: date-string parsing, time zones and invalid dates (NaN) are not modelled. A missing or empty date string is `None`. A day is `ts / 86400000`.
- `toLowerCase` lower-cases only A to Z; other Unicode case mappings are not modelled.
- Dashboard: the fallback label and colour `#94a3b8` for an unknown status cannot be reached, because `LeadStatus` has six values and each has an entry.
- Dashboard.Revenue is a plain integer sum; no property is claimed beyond its definition.
- Concurrent or overlapping `syncLeads` calls from several pages are not modelled, and neither are async interleavings inside a handler.
- The COMPANIES and TASKS storage keys (lib/storage.ts:7-8) are left out: they have no operations.
- The `ai_score` and `ai_insights` lead fields are left out: no core operation reads them.
- Settings.tsx is not part of this model. Its category handling forwards to the engine and the backend, and its direct whole-list write of the categories key (like pages/Leads.tsx:83) is an overwrite, not logic.
- Leads: loading categories from the backend and `handleOpenCreate`/`handleOpenEdit` are left out: they fill the form.
- LeadMerge.SortNewestFirst: it is a stable insertion sort, as ECMAScript 2019 `Array.prototype.sort` is stable, but stability is not proved as a separate property.
- Monitor.MonitorOrderFacts: proved for the corrected comparator only, not for the page's comparator as written (see Findings).
- Monitor.UndatedKeepOrder: holds for the corrected comparator only; with the page's comparator the order of two undated leads depends on the engine's sort.
- Monitor.MonitorOrder uses the corrected comparator (see Findings). The order the page's comparator produces for several undated leads depends on the engine's sort, and it is not modelled.

## Findings

| source | as written | input that shows it | evidently intended | confidence | as-written member | corrected member |
|---|---|---|---|---|---|---|
| pages/Monitor.tsx:81-85 | the comparator returns 1 whenever `a` has no expiration date, even when `b` has none either | two leads without `expiration_date`: compare(a, b) = 1 and compare(b, a) = 1, an inconsistent comparator, so ECMAScript leaves the sort order implementation-defined | return 0 when both leads are undated, so undated leads keep their order after the dated ones | not executed; medium | Monitor.CompareAsWrittenInconsistent | Monitor.CompareExpiryConsistent |
