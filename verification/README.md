# Software download manager: mock services and dashboard logic in Dafny

This project models the logic of a small browser front end for a software
download manager. The front end has no real backend. Instead, a mock service
layer holds a fixed catalog of twelve software records and answers
registration, login, catalog and download-link requests. A dashboard page
filters that catalog and keeps a multi-select list of record ids for bulk
downloads.

The model has six modules:

- `Seqs` (seqs.dfy): order-preserving `Filter` (the array `filter` the source uses throughout), subsequences, and duplicate-free lists.
- `Text` (text.dfy): lower-casing and substring containment (`toLowerCase`, `includes`).
- `Catalog` (catalog.dfy): the record type and the twelve-record catalog.
- `Api` (api.dfy): `register`, `login`, `getAll` and `download`, each a total function of its arguments. `register` and `login` can reject, so they return `Ok(value)` or `Err(message)` for the promise's resolve and reject. `getAll` and `download` always resolve, so they return their value directly.
- `Filtering` (filtering.dfy): the dashboard's filtered view, as a pure function of the catalog, the search term and the category tab.
- `Selection` (selection.dfy): the checkbox toggle over the id list, and the effect of the bulk and single download handlers on the selection. It also has a small event model of the dashboard. In it a bulk download is two events, the click that sends the request and the answer that arrives later, so other actions can happen in between. The model's invariant is that the selection never holds an id twice and only holds ids of loaded records.

Each operation has a partner that it is proved against:

- The two-stage view filter is proved equal to one filter by the per-record condition `Visible`.
- `Includes` is proved equivalent to the existence of an occurrence index.
- Filter-then-project in `download` is proved equal to project-then-filter.
- Registration's two ordered checks are proved to collapse into one acceptance condition.
- The toggle is proved to be an involution up to membership.
- The handlers are proved against the mock service.

## Model

| member | source | states |
|---|---|---|
| Catalog.CatalogNumbered | src/services/api.js:5-127 | The catalog has 12 records with ids 1 to 12 in order. |
| Catalog.CatalogShape | src/services/api.js:5-127 | The ids are pairwise distinct. An id is present exactly when it is between 1 and 12. Every category is one of Browser, Media, Development, Utilities, Communication and Gaming. |
| Api.GetAll | src/services/api.js:169-175 | Returns the stored catalog unchanged: 12 records numbered 1 to 12 in order, with distinct ids. |
| Api.Register | src/services/api.js:131-146 | Succeeds exactly when name and email are non-empty and the password has at least 6 characters. It rejects with "All fields are required" exactly when some field is empty, so an empty password never gets the length message. It rejects with "Password must be at least 6 characters" exactly when all fields are present and the password is shorter than 6. |
| Api.Login | src/services/api.js:148-164 | Rejects with "Email and password are required" exactly when email or password is empty. Otherwise it returns token "dummy-token" and a user whose email is the given one. It never rejects with "Invalid credentials", so that branch is unreachable. |
| Api.AuthExamples | src/services/api.js:135-161 | Concrete calls: an empty name or an empty password is rejected as missing, "12345" is too short, "123456" is accepted, and login with "x" succeeds while an empty email is rejected. |
| Api.DownloadFrom | src/services/api.js:180-186 | Returns at most as many links as there are catalog records. Every link's id was requested. Every requested catalog record appears as its link. Every link is the projection of a requested catalog record, with id, name, download URL and file name copied from it. |
| Api.Download | src/services/api.js:177-190 | Against the static catalog: at most 12 links. Every link's id was requested. Every requested catalog record appears as its link. Every link is the projection of a requested catalog record. |
| Api.LinksOfFilter | src/services/api.js:180-186 | Filtering records by id and then projecting them to links gives the same result as projecting all records and then filtering the links by id. |
| Api.DownloadInCatalogOrder | src/services/api.js:180 | The links are a subsequence of the catalog's links. They come in catalog order, whatever the request order. |
| Api.DownloadDependsOnIdSet | src/services/api.js:180 | Two requests with the same ids give the same result. Reordering or repeating requested ids changes nothing. |
| Api.DownloadHasDistinctIds | src/services/api.js:180 | Over a catalog with distinct ids, no two links share an id. A duplicated request id never duplicates output. |
| Api.DownloadDropsUnknownIds | src/services/api.js:180 | A request naming no catalog id returns no links. Unknown ids are dropped without an error. |
| Api.DownloadOneRecord | src/services/api.js:180-186 | Over a catalog with distinct ids, a one-id request for a record returns exactly that record's link. |
| Api.DownloadOneAndThree | src/services/api.js:180-186 | In any catalog numbered 1, 2, 3 and so on, requesting ids 1 and 3 returns exactly the first and third records' links. |
| Api.DownloadExampleOneThree | src/services/api.js:177-190 | Requesting ids 1 and 3 from the static catalog returns exactly two links, for records 1 and 3. |
| Api.DownloadExampleOneThreeFields | src/services/api.js:181-186 | The link for id 3 carries that record's download URL and file name. |
| Api.DownloadExampleAbsent | src/services/api.js:177-190 | Requesting id 999 returns an empty list, not an error. |
| Api.DownloadExampleRepeated | src/services/api.js:180 | Requesting [3, 1, 3] gives the same links as requesting [1, 3]. |
| Seqs.Filter | src/pages/DashboardPage.jsx:46 | Array filtering: every kept element passes the test and comes from the input, every passing input element is kept, and the result is no longer than the input. The result is a subsequence of the input, so input order is kept. |
| Seqs.FilterCounts | src/pages/DashboardPage.jsx:46 | Every passing element is kept as many times as it occurs in the input. Every failing element is dropped entirely. The result's multiset is contained in the input's. |
| Text.LowerChar | src/pages/DashboardPage.jsx:52-53 | A capital A to Z becomes the letter 32 code points later, its small letter. Every other character is unchanged. No capital letter results. |
| Text.ToLower | src/pages/DashboardPage.jsx:52-53 | Lower-casing keeps the length, maps each character on its own by `LowerChar`, and leaves no capital letter. |
| Text.ToLowerIdempotent | src/pages/DashboardPage.jsx:52-53 | Lower-casing twice is the same as lower-casing once. |
| Text.IncludesIffOccurs | src/pages/DashboardPage.jsx:52-53 | The substring test holds exactly when the term occurs at some index of the text. The empty term occurs everywhere. |
| Filtering.FilterSoftware | src/pages/DashboardPage.jsx:41-58 | Soundness: with a tab other than "All", every shown record has that category. With a non-empty term, every shown record's lower-cased name or description contains the lower-cased term. Completeness: every catalog record meeting both active conditions is shown, and only catalog records are shown. |
| Filtering.FilterSoftwareIsOnePass | src/pages/DashboardPage.jsx:41-58 | The category stage followed by the search stage equals a single filter by "in the tab's category (or tab is All) and matching the term (or term is empty)". |
| Filtering.FilterSoftwareIsSubseq | src/pages/DashboardPage.jsx:41-58 | The view is a subsequence of the catalog and keeps the catalog's relative order. |
| Filtering.FilterSoftwareKeepsAllIff | src/pages/DashboardPage.jsx:42-57 | The view equals the whole catalog exactly when every record is visible. With the "All" tab and an empty term it always does. |
| Filtering.FilterSoftwareIdempotent | src/pages/DashboardPage.jsx:41-58 | Filtering the view again with the same term and tab gives the same view. |
| Filtering.SearchIgnoresCase | src/pages/DashboardPage.jsx:50-55 | Lower-casing the search term does not change the view. |
| Filtering.CatalogCategoriesHaveTabs | src/pages/DashboardPage.jsx:15 | Every catalog record's category is one of the tabs other than "All". |
| Selection.Toggle | src/pages/DashboardPage.jsx:65-71 | Toggling flips whether the id is selected and leaves every other id's membership alone. An unselected id is appended at the end. Removing a selected id keeps the other ids in their order. |
| Selection.ToggleKeepsNoDups | src/pages/DashboardPage.jsx:65-71 | A selection without duplicates stays without duplicates. |
| Selection.ToggleTwiceSameMembers | src/pages/DashboardPage.jsx:66-69 | Toggling the same id twice restores the same set of ids. |
| Selection.ToggleTwiceRestoresAbsent | src/pages/DashboardPage.jsx:66-69 | If the id was unselected, toggling it twice restores the list exactly. |
| Selection.ToggleTwicePresent | src/pages/DashboardPage.jsx:66-69 | If the id was selected, toggling it twice moves it to the end. For a duplicate-free list, the original comes back exactly when the id was already last. |
| Selection.ToggleStaysInCatalog | src/pages/DashboardPage.jsx:65-71 | If the selection holds only catalog ids and the toggled id is a catalog id, the result holds only catalog ids. |
| Selection.DownloadSelected | src/pages/DashboardPage.jsx:96-123 | The handler run to completion with no other event in between. With an empty selection there is no request and nothing changes. Otherwise the whole selection is requested. Success clears the selection and opens the returned URLs in order. Rejection opens nothing and keeps the selection. |
| Selection.DownloadSingle | src/pages/DashboardPage.jsx:73-94 | Requests a one-element id list and never changes the selection. It opens the first returned URL exactly when the service answers with at least one link. |
| Selection.DownloadSelectedWithMock | src/pages/DashboardPage.jsx:96-115 | Against the mock service, a non-empty selection is always cleared. The opened URLs are the download URLs of exactly the selected catalog records. |
| Selection.UrlsOfDownload | src/services/api.js:180-186 | The URLs in a download answer are the download URLs of exactly the requested catalog records. |
| Selection.DownloadSingleWithMock | src/pages/DashboardPage.jsx:73-86 | Against the mock service, a catalog card's download requests its id, opens exactly its URL and leaves the selection alone. |
| Selection.Step | src/pages/DashboardPage.jsx:65-123 | No dashboard action changes the loaded catalog. Only a check or a bulk answer changes the selection. A successful bulk answer empties the selection, whatever it holds by then. A check of a shown card toggles that card's id. A bulk answer removes its request from the pending list. A rejected bulk answer leaves the selection alone. A click on the bulk button with a non-empty selection adds that selection as a pending request. With an empty selection the click does nothing. No other event changes the pending requests. Typing sets the search term and picking a tab sets the category; no other event changes either, so the view a later check acts on is determined. A check beyond the shown cards, or an answer to no pending request, changes nothing. |
| Selection.ClickThenAnswerIsDownloadSelected | src/pages/DashboardPage.jsx:96-115 | With nothing pending, a click followed at once by the answer leaves the selection that `DownloadSelected` states, and nothing pending. |
| Selection.CheckWhilePendingIsCleared | src/pages/DashboardPage.jsx:66-69 | A card checked while a bulk request is pending is not in that request. If the request then succeeds, the selection is emptied, so the card is neither downloaded nor still selected. |
| Selection.StepKeepsSelectionValid | src/pages/DashboardPage.jsx:65-123 | Every action keeps the selection free of duplicates and made only of ids of loaded records: typing, picking a tab, checking a shown card, clicking either download, and a bulk answer arriving. |

Four behaviours of the code are easily mistaken for set-based or timed ones. The model follows the code:

- The selection is a list of ids, not a set. Toggling an id twice always restores membership. It restores the list itself when the id was absent, or when it was present and already last. Otherwise the id moves to the end.
- `download` takes a list of ids, not a set. The model proves that only the set of ids matters.
- The bulk handler awaits the service before clearing the selection, and it clears whatever the selection holds by then. An id checked while the request is pending is therefore dropped on success without being downloaded.
- The bulk handler schedules every link to open after the same 300 ms delay. The openings are not staggered relative to each other. Timing is not modelled.

## Left out

- Asynchrony: the `setTimeout` delays and the promise plumbing. Every call is a total function of its arguments. The event model splits only the bulk download into a request and an answer. The single-card download does not change the state, so it stays one event.
- Selection.Step: records the pending requests and the selection, not the URLs each answer opens. `DownloadSelected` states those.
- Host side effects: `window.open`, the 300 ms delay before bulk openings, `Swal.fire` notifications and their texts (including the "Something went wrong" fallback), and `localStorage` token storage. The handlers report the URLs they would open instead.
- React machinery: `useState`/`useEffect` re-rendering and the `loading` flags. The view is recomputed by a pure function.
- `loadSoftware`: it only stores the `getAll` result (and shows a notice on failure), and `GetAll` is modelled.
- `handleVisitSite` and `handleLogout`: each only calls the host (open a URL, or clear the token and then navigate).
- Session gating and routing (src/App.jsx), and the login and registration forms. The forms only forward to the service layer; their `required`/`minLength` attributes are enforced by the browser. The route guard component is not part of this model.
- Display-only record fields: the icon URL and the human-readable size.
- Text.ToLower: lower-cases ASCII letters only, where JavaScript's `toLowerCase` applies full Unicode case mapping.
- Api.Register: the password length counts characters of a `seq<char>`, where JavaScript counts UTF-16 code units. Fields are strings, so JavaScript's other falsy values (`undefined`, `null`) do not arise.
- Api.Login: same as Register; a field counts as missing exactly when it is the empty string.
- Selection.DownloadSingle: a rejected request and a successful request with no links both open nothing. The model does not say which error notice is shown.
