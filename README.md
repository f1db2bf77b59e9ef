# Job list search, modelled in Dafny

This project models the search logic of the `JobList` screen of the MyCV job
application (a React Native screen). The screen holds the loaded jobs, the
two search boxes (job title and location), an autocomplete suggestion list
under each box, the list of jobs on display, and a short search history.

- `case_insensitive.dfy` (module `CaseInsensitive`): the matching rule
  `value.toLowerCase().includes(fragment.toLowerCase())`, as `Contains`.
  Lower-casing is ASCII-only.
- `dedup.dfy` (module `Dedup`): `[...new Set(xs)]` as `Distinct`. It keeps
  each distinct value once, at its first occurrence.
- `job_search.dfy` (module `JobSearch`): the `Job` record, the suggestion
  derivation (`Suggestions` = map, filter, dedup) and the search filter
  (`FilterJobs`).
- `search_history.dfy` (module `SearchHistory`): the bounded history
  (`Record`). It prepends a non-empty query and keeps the first two entries.
- `job_list_screen.dfy` (module `JobListScreen`): the screen state as the
  class `JobList`, with one field per React state hook. It has one method
  per event: jobs fetched, history fetched, text typed, suggestion selected,
  search submitted. Each method states the whole new state and what stays
  unchanged. The object invariant `Valid()` says that the displayed jobs are
  always a subsequence of the loaded jobs.
- `search_examples.dfy` (module `SearchExamples`): the two worked examples
  of the search on three sample jobs.

The history limit is 2. The code calls `slice(0, 2)`, but the comment
beside that call speaks of five entries. The model follows the code. A
history fetched from the server is taken as it comes, so it may hold more
than two entries until the next recorded search.

## Model

| member | source | states |
|---|---|---|
| CaseInsensitive.Lower | frontend_MyCV/src/screen/User/JobList.tsx:106 | lower-casing keeps the length, turns each ASCII letter A to Z into its lower-case letter (code point plus 32), and leaves every other character as it is |
| CaseInsensitive.LowerEqualIgnoringCase | frontend_MyCV/src/screen/User/JobList.tsx:106 | two strings that differ only in the case of ASCII letters lower-case to the same string |
| CaseInsensitive.ContainsCaseVariants | frontend_MyCV/src/screen/User/JobList.tsx:129-130 | changing the letter case of the value or of the fragment does not change whether it matches ("ENG" matches what "eng" matches) |
| CaseInsensitive.LowerIdempotent | frontend_MyCV/src/screen/User/JobList.tsx:106 | lower-casing twice is the same as lower-casing once |
| CaseInsensitive.Includes | frontend_MyCV/src/screen/User/JobList.tsx:106 | `includes`; no contract, its meaning is proved in `CaseInsensitive.IncludesIff` |
| CaseInsensitive.IncludesIff | frontend_MyCV/src/screen/User/JobList.tsx:106 | `includes` holds exactly when the fragment equals the block of the value at some position |
| CaseInsensitive.Contains | frontend_MyCV/src/screen/User/JobList.tsx:129-130 | an empty fragment matches every value; a matching fragment is never longer than the value |
| CaseInsensitive.ContainsIff | frontend_MyCV/src/screen/User/JobList.tsx:129-130 | a value contains a fragment exactly when some block of the lower-cased value equals the lower-cased fragment |
| CaseInsensitive.ContainsIgnoresCase | frontend_MyCV/src/screen/User/JobList.tsx:106 | lower-casing the value or the fragment first does not change whether it matches |
| CaseInsensitive.ContainsSelf | frontend_MyCV/src/screen/User/JobList.tsx:129 | every value contains itself, so a selected suggestion matches the field it came from |
| CaseInsensitive.ContainsNeedsEveryChar | frontend_MyCV/src/screen/User/JobList.tsx:106 | a fragment with a character the value lacks (ignoring case) does not match |
| Dedup.FirstIndex | frontend_MyCV/src/screen/User/JobList.tsx:107 | the result is a position holding the value, with no earlier position holding it |
| Dedup.FirstIndexOfPrefix | frontend_MyCV/src/screen/User/JobList.tsx:107 | a value in a prefix is first found at the same position in the prefix and in the whole list |
| Dedup.Distinct | frontend_MyCV/src/screen/User/JobList.tsx:107 | `[...new Set(xs)]` has no duplicates, holds exactly the values of xs, and lists them in the order of their first occurrence in xs |
| Dedup.FirstOccurrenceOrderUnique | frontend_MyCV/src/screen/User/JobList.tsx:107 | two lists with the same values, both in first-occurrence order of xs, are equal |
| Dedup.DistinctCharacterized | frontend_MyCV/src/screen/User/JobList.tsx:107 | a list equals `[...new Set(xs)]` if and only if it holds exactly the values of xs in first-occurrence order |
| Dedup.DistinctOfNoDuplicates | frontend_MyCV/src/screen/User/JobList.tsx:107 | a list without duplicates comes out of the Set round trip unchanged |
| JobSearch.SubsequenceReflexive | frontend_MyCV/src/screen/User/JobList.tsx:79-80 | every list is a subsequence of itself, so the fetched jobs shown as they are keep the screen invariant |
| JobSearch.Project | frontend_MyCV/src/screen/User/JobList.tsx:104-105 | the `.map` to the title or location; no contract, its meaning is proved in `JobSearch.ProjectMembership` |
| JobSearch.ProjectMembership | frontend_MyCV/src/screen/User/JobList.tsx:104-105 | the mapped values are exactly the chosen field of some loaded job |
| JobSearch.KeepContaining | frontend_MyCV/src/screen/User/JobList.tsx:106 | the `.filter` on the typed text (also line 112); no contract, its meaning is proved in `JobSearch.KeepContainingMembership` and `JobSearch.KeepContainingFirstOrder` |
| JobSearch.KeepContainingMembership | frontend_MyCV/src/screen/User/JobList.tsx:106 | the filter keeps exactly the values that contain the typed text |
| JobSearch.KeepContainingFirstOrder | frontend_MyCV/src/screen/User/JobList.tsx:104-107 | for two kept values, their first occurrences come in the same order after the filter as before it |
| JobSearch.KeepContainingEmpty | frontend_MyCV/src/screen/User/JobList.tsx:106 | with empty typed text the filter keeps every value |
| JobSearch.KeepContainingIgnoresTypedCase | frontend_MyCV/src/screen/User/JobList.tsx:106 | typed texts that differ only in letter case keep the same values |
| JobSearch.Suggestions | frontend_MyCV/src/screen/User/JobList.tsx:104-113 | `[...new Set(jobs.map(..).filter(..))]` for either box; no contract, its meaning is proved in `JobSearch.SuggestionsCharacterized` |
| JobSearch.SuggestionsIgnoreTypedCase | frontend_MyCV/src/screen/User/JobList.tsx:104-113 | typed texts that differ only in letter case give the same suggestion list |
| JobSearch.SuggestionsMembership | frontend_MyCV/src/screen/User/JobList.tsx:104-113 | a value is suggested if and only if it is the title (or location) of some loaded job and contains the typed text, ignoring case |
| JobSearch.SuggestionsOrder | frontend_MyCV/src/screen/User/JobList.tsx:104-113 | suggestions have no duplicates and come in the order in which the values first appear among the jobs |
| JobSearch.SuggestionsCharacterized | frontend_MyCV/src/screen/User/JobList.tsx:101-115 | a list is the suggestion list if and only if it holds exactly the matching field values, in first-occurrence order among the jobs |
| JobSearch.SuggestionsForEmptyText | frontend_MyCV/src/screen/User/JobList.tsx:104-107 | empty typed text suggests every distinct field value, once each, in first-occurrence order |
| JobSearch.Matches | frontend_MyCV/src/screen/User/JobList.tsx:129-131 | the filter predicate `matchTitle && matchLocation`; no contract, its meaning is proved in `JobSearch.FilterJobs` |
| JobSearch.FilterJobs | frontend_MyCV/src/screen/User/JobList.tsx:128-132 | a job is kept if and only if it is loaded and both its title and its location contain the fragments, ignoring case |
| JobSearch.FilterJobsIsSubsequence | frontend_MyCV/src/screen/User/JobList.tsx:128-132 | the filtered jobs keep their original order (a subsequence of the jobs) |
| JobSearch.FilterJobsMultiplicity | frontend_MyCV/src/screen/User/JobList.tsx:128-132 | a matching job appears as many times as among the loaded jobs, a non-matching job not at all |
| JobSearch.FilterJobsEmptyQuery | frontend_MyCV/src/screen/User/JobList.tsx:128-132 | two empty fragments keep every job, in order |
| JobSearch.FilterJobsIdempotent | frontend_MyCV/src/screen/User/JobList.tsx:128-132 | filtering the result again with the same fragments changes nothing |
| JobSearch.FilterJobsIgnoresCase | frontend_MyCV/src/screen/User/JobList.tsx:128-132 | fragments that differ only in letter case select the same jobs |
| JobSearch.TitleOnlyFilter | frontend_MyCV/src/screen/User/JobList.tsx:128-132 | with an empty location fragment, a job is kept exactly when its title contains the title fragment |
| SearchHistory.IsRecorded | frontend_MyCV/src/screen/User/JobList.tsx:134 | the truthiness test on the two fragments (true when either is non-empty); no contract, its meaning is proved in `SearchHistory.Record` |
| SearchHistory.Record | frontend_MyCV/src/screen/User/JobList.tsx:134-138 | with both fragments empty the history is unchanged; otherwise the query heads a history of min(2, old length + 1) entries whose tail is a prefix of the old history |
| SearchHistory.RecordKeepsBound | frontend_MyCV/src/screen/User/JobList.tsx:137 | a history of at most two entries stays at most two entries |
| SearchHistory.TwoSearchesDetermineHistory | frontend_MyCV/src/screen/User/JobList.tsx:135-137 | after two recorded searches the history is exactly those two queries, most recent first, whatever it held before |
| SearchHistory.ThreeSearchesKeepLastTwo | frontend_MyCV/src/screen/User/JobList.tsx:135-137 | after three recorded searches the history is exactly the last two queries, most recent first |
| JobListScreen.JobList.constructor | frontend_MyCV/src/screen/User/JobList.tsx:66-73 | every state hook starts empty and the screen invariant holds |
| JobListScreen.JobList.JobsFetched | frontend_MyCV/src/screen/User/JobList.tsx:78-80 | a successful jobs fetch sets both the job list and the displayed list to the data; nothing else changes |
| JobListScreen.JobList.HistoryFetched | frontend_MyCV/src/screen/User/JobList.tsx:94-95 | a successful history fetch replaces the history with the data; nothing else changes |
| JobListScreen.JobList.HandleInputChange | frontend_MyCV/src/screen/User/JobList.tsx:101-115 | typing sets that box's text and suggestion list (the matching field values of the loaded jobs, once each, in first-occurrence order); the other box, its suggestions, the jobs, the displayed jobs and the history are unchanged |
| JobListScreen.JobList.HandleSuggestionSelect | frontend_MyCV/src/screen/User/JobList.tsx:117-125 | selecting sets that box's text and empties only that box's suggestion list; everything else is unchanged |
| JobListScreen.JobList.HandleSearch | frontend_MyCV/src/screen/User/JobList.tsx:127-148 | the displayed jobs become the matching jobs in original order and the history is updated by `Record`; two empty fragments show all jobs and keep the history; the texts, suggestions and jobs are unchanged |
| JobListScreen.ThreeSearches | frontend_MyCV/src/screen/User/JobList.tsx:134-138 | typing and submitting three queries with a non-empty fragment each leaves exactly the last two in the screen's history, most recent first |
| SearchExamples.FilterExample | frontend_MyCV/src/screen/User/JobList.tsx:128-132 | on the three sample jobs, searching "Backend" in "Hanoi" yields only the backend engineer in Hanoi |
| SearchExamples.UpperCaseSuggestionsExample | frontend_MyCV/src/screen/User/JobList.tsx:104-107 | on the three sample jobs, typing "ENG" suggests the same two titles as "eng" |
| SearchExamples.SuggestionsExample | frontend_MyCV/src/screen/User/JobList.tsx:104-107 | on the three sample jobs, typing "eng" in the title box suggests "Backend Engineer" then "Frontend Engineer" |

## Left out

- The network requests: `GET /jobs`, `GET /search-history` and the `POST /search-history` that saves a query. A successful fetch is modelled as the events `JobsFetched` and `HistoryFetched`. A failed fetch only logs, so it leaves the state as it was. The saving request has no effect on the screen state and is not modelled.
- The `loading` flag and the loading view. The flag is UI lifecycle and is cleared whether or not the fetch succeeds.
- `handleHistorySearch` (tapping a history entry). It sets both boxes and then calls `handleSearch` at once. React state updates are asynchronous, so that search uses the box texts from before the tap, not the entry's values. The model does not claim that re-running an entry filters by that entry.
- The asynchronous ordering. The two fetches may finish in either order, and they write disjoint fields. In `handleSearch`, the history is updated before the save request is awaited and the displayed jobs after it. The model treats each handler as one atomic step. Updates after the screen unmounts are not modelled.
- `CaseInsensitive.Lower`: lower-cases only the ASCII letters A to Z. JavaScript `toLowerCase` also maps non-ASCII letters, and some of those mappings change the length of the string.
- Rendering, styles and navigation: `JobCard`, the JSX tree, the style sheet and the move to the job detail screen.
- The job creation schema (`backend_MyCV/src/jobs/dto/create-job.dto.ts`). It declares data shapes and has no behaviour.
