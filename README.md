# Urban farm space sharing: page logic in Dafny

The application connects landowners who have unused land with gardeners who
want a plot. Landowners list spaces. Gardeners browse them and send a request,
which goes through `pending → approved → active → completed`. The two parties
talk on a per-request chat page, and that page also carries the buttons that
start and finish the lease. Dashboards summarise everything for each role.

This project models the rules in the page components. The database is replaced
by in-memory values, and every database or storage call by an explicit success
flag or result. Times are integer milliseconds, with "now" passed in.

| file | module | page |
|---|---|---|
| `domain.dfy` | `Domain` | shared values: statuses, roles, request rows, the lifecycle graph |
| `text.dfy` | `Text` | `trim`, `startsWith`, `includes`, ASCII `toLowerCase`, `split` on one character |
| `seqs.dfy` | `Seqs` | `filter`, `find`, removal by index, `[...new Set(xs)]`, sums |
| `chat_page.dfy` | `ChatPage` | the chat page: status changes, notices, sending, the live feed, history order |
| `space_detail.dfy` | `SpaceDetail` | the space page: gallery, carousel, occupancy, the gardener's open request, the booking card |
| `space_form.dfy` | `SpaceForm` | the create/edit form: area codec, amenity toggle, bounded photo lists, loading, saving |
| `gardener_dashboard.dfy` | `GardenerDashboard` | the gardener's dashboard: active farm, search, lease countdown, owner names, labels |
| `landowner_dashboard.dfy` | `LandownerDashboard` | the landowner's dashboard: pending counts, statistics, show/hide, notices |
| `landing.dfy` | `Landing` | the landing page: greeting, scroll state, dashboard link, display name |

Pages whose handlers change state step by step are classes with `modifies`
clauses: `ChatRoom`, `SpaceDetailView`, `SpaceFormPage` and
`LandownerDashboardPage`. Loops in the source are `while` loops with
invariants: the upload loop of the form and the counting loop of the landowner
dashboard. Everything else is a function, with lemmas about it.

The status-changing code does not check the current status or occupancy, and
the model keeps it that way. `ChatRoom.UpdateStatus` writes whatever it is
given. The role and status conditions exist only in the rendering of the two
buttons. They are the predicates `CanStart` and `CanFinish`, and the
preconditions of `ConfirmStart` and `ConfirmFinish`. The buttons read the
page's `requestInfo` snapshot (`ChatRoom.viewStatus`), not the row
(`ChatRoom.status`). The snapshot is refreshed only when the page opens and
after its own successful write. After the other party changes the status, the
page can therefore offer a button that is no lifecycle step from the row's
real status, and the write goes through. Approval and rejection
happen on a page that is not part of this model. `Domain.Step` includes
`pending → approved` only as an assumed edge of the lifecycle graph.

## Model

| member | source | states |
|---|---|---|
| Domain.StepMovesForward | src/pages/ChatPage.tsx:141-179 | every lifecycle edge, including the two the chat buttons take, moves strictly forward and leaves no terminal status; past approval the next status is determined |
| Domain.TwoStepsNeverReturn | src/pages/ChatPage.tsx:141-179 | after two steps a request is two ranks further on, so it never returns to a status it left |
| Text.TrimSlice | src/pages/ChatPage.tsx:86-89 | `trim` keeps a contiguous slice of its input, and neither end of that slice is whitespace |
| Text.TrimStripsWhitespace | src/pages/ChatPage.tsx:86-89 | everything `trim` removes, before and after that slice, is whitespace |
| Text.TrimEmptyIff | src/pages/ChatPage.tsx:86 | `!text.trim()` holds exactly when the text is all whitespace |
| Text.TrimIdempotent | src/pages/SpaceDetail.tsx:75 | trimming an already trimmed note changes nothing |
| Text.ContainsIff | src/pages/GardenerDashboard.tsx:92-93 | `includes` holds exactly when some position starts a copy of the term |
| Text.ToLowerIdempotent | src/pages/GardenerDashboard.tsx:92-93 | lower-casing twice is lower-casing once |
| Text.Split | src/pages/SpaceForm.tsx:63 | `split(" ")` yields at least one piece and no piece contains the separator |
| Text.JoinSplit | src/pages/SpaceForm.tsx:63 | joining the pieces of a split gives the string back |
| Text.SplitAfterFirst | src/pages/SpaceForm.tsx:63 | for `a + sep + b` with no separator in `a`, the first piece is `a` and the rest are the pieces of `b` |
| Text.BeforeFirstCut | src/pages/Landing.tsx:98 | `email.split('@')[0]` is exactly the part before the first `@` |
| Seqs.Filter | src/pages/GardenerDashboard.tsx:91-94 | `filter` keeps exactly the elements that pass and never lengthens the list |
| Seqs.FilterCounts | src/pages/GardenerDashboard.tsx:91-94 | `filter` keeps each passing element exactly as often as it occurs and drops every failing one |
| Seqs.FilterIsSubsequence | src/pages/GardenerDashboard.tsx:91-94 | `filter` keeps the input order |
| Seqs.RemoveAt | src/pages/SpaceForm.tsx:110-117 | `filter((_, i) => i !== index)` drops exactly that position, or nothing when the index is out of range |
| Seqs.Dedup | src/pages/GardenerDashboard.tsx:50 | `[...new Set(xs)]` has no repeats and holds the same elements as `xs` |
| Seqs.DedupOfDistinct | src/pages/GardenerDashboard.tsx:50 | a list without repeats passes through unchanged |
| Seqs.FindIsFirst | src/pages/GardenerDashboard.tsx:26 | `find` misses only when nothing passes, and otherwise returns the first element that passes |
| ChatPage.SystemClassification | src/pages/ChatPage.tsx:104-109 | a body is a system message exactly when its first character is 🌱 or 🏁; both notice bodies qualify |
| ChatPage.TypedMarkerLooksLikeNotice | src/pages/ChatPage.tsx:109 | classification depends only on the text, so a typed message starting with 🌱 is shown as a notice |
| ChatPage.ChooseText | src/pages/ChatPage.tsx:85 | a non-empty override wins over the draft; a missing or empty one falls back to it |
| ChatPage.BuildUpdate | src/pages/ChatPage.tsx:96-98 | start writes `active` with `started_at`, finish writes `completed` with `finished_at`, and never the other timestamp |
| ChatPage.InsertByTimeSorted | src/pages/ChatPage.tsx:72 | inserting into a time-ordered list keeps it ordered |
| ChatPage.InsertByTimeKeeps | src/pages/ChatPage.tsx:72 | inserting adds exactly that message and loses none |
| ChatPage.OrderByCreatedAtSorted | src/pages/ChatPage.tsx:72 | history loads in ascending `created_at` order |
| ChatPage.OrderByCreatedAtKeeps | src/pages/ChatPage.tsx:72 | loading history neither loses nor duplicates a message |
| ChatPage.OrderByCreatedAtOfSorted | src/pages/ChatPage.tsx:72 | a log already in time order loads unchanged |
| ChatPage.SortedArrangementUnique | src/pages/ChatPage.tsx:72 | two ascending arrangements of the same messages are equal when no two messages share a timestamp |
| ChatPage.OrderByCreatedAtDetermined | src/pages/ChatPage.tsx:72 | when no two messages share a timestamp, any ascending arrangement of the log is exactly the loaded history |
| ChatPage.ChatRoom.constructor | src/pages/ChatPage.tsx:45-81 | the page opens on the request row, a `requestInfo` snapshot equal to it, its ordered history (no messages when the first read fails) and an empty composer |
| ChatPage.ChatRoom.UpdateStatus | src/pages/ChatPage.tsx:94-107 | whatever the current status, a successful write sets the target status and its one timestamp, and the snapshot is re-read. A failed write changes nothing. The notice is logged only after a successful write (and its own insert) |
| ChatPage.ChatRoom.WrittenElsewhere | src/pages/ChatPage.tsx:45-57 | a status write from another open page changes the row and the log but not this page's snapshot, since the page subscribes only to message inserts |
| ChatPage.ChatRoom.ConfirmStart | src/pages/ChatPage.tsx:141-158 | from the gardener's start button (shown on an `approved` snapshot), a successful write sets `active` and `started_at` and logs the activation notice. It is a lifecycle step exactly when the row was still `approved`, which holds whenever the snapshot was current |
| ChatPage.ChatRoom.ConfirmFinish | src/pages/ChatPage.tsx:162-179 | from either party's finish button (shown on an `active` snapshot), a successful write sets `completed` and `finished_at` and logs the completion notice. It is a lifecycle step exactly when the row was still `active`; on a row already completed it rewrites `finished_at` and logs a second notice |
| ChatPage.ChatRoom.SendMessage | src/pages/ChatPage.tsx:83-92 | blank text changes nothing. Otherwise at most one message is appended, with the trimmed text and the sender's id, and the draft is cleared |
| ChatPage.ChatRoom.ReceiveLive | src/pages/ChatPage.tsx:52 | a live message goes to the end and earlier entries are untouched |
| ChatPage.ChatRoom.ReloadHistory | src/pages/ChatPage.tsx:71-79 | after a successful read the shown messages become the log, time-ordered and as a permutation; a failed read leaves them as they were |
| ChatPage.ChatRoom.PickQuickAction | src/pages/ChatPage.tsx:242-247 | a chip, available only to the gardener with the composer open, puts its text into the draft |
| ChatPage.OfferedActionsFollowLifecycle | src/pages/ChatPage.tsx:113-242 | judged by the snapshot, start is offered only to the gardener on `approved`, finish only to a party on `active`. Never both. A request seen as completed offers neither and closes the composer. Quick actions are the gardener's |
| ChatPage.StaleViewOffersFinish | src/pages/ChatPage.tsx:162-179 | a snapshot still `active` after the other party completed the request keeps offering finish to both parties and keeps the composer open, although that write is no lifecycle step |
| SpaceDetail.Gallery | src/pages/SpaceDetail.tsx:52-54 | the gallery if non-empty, else the main image if present, else nothing |
| SpaceDetail.GalleryFromRecord | src/pages/SpaceDetail.tsx:52-54 | the gallery is empty only when the record has no photo, and every photo shown comes from the record |
| SpaceDetail.OwnerName | src/pages/SpaceDetail.tsx:48 | the owner's profile name, or the fallback when it is missing or empty |
| SpaceDetail.MaybeSingle | src/pages/SpaceDetail.tsx:57 | `maybeSingle()` yields a row exactly when one row matches |
| SpaceDetail.OccupiedAsWrittenMissesTwoActive | src/pages/SpaceDetail.tsx:57-58 | the check as written reports a space with two active requests as free (see Findings) |
| SpaceDetail.IsOccupiedIff | src/pages/SpaceDetail.tsx:57-58 | a space is occupied exactly when some request on it is active; the as-written check agrees while at most one is active |
| SpaceDetail.OpenRequest | src/pages/SpaceDetail.tsx:61 | a request that is found is this gardener's, on this space, and pending, approved or active. One is found exactly when one such request exists |
| SpaceDetail.NoOpenRequestFound | src/pages/SpaceDetail.tsx:61 | with no open request of the gardener on the space, none is found |
| SpaceDetail.BookingPanelRules | src/pages/SpaceDetail.tsx:261-310 | the form shows exactly for a signed-in gardener with no open request on a free space, and an open request takes priority over the occupied banner |
| SpaceDetail.BadgeLabelsDistinguish | src/pages/SpaceDetail.tsx:275-276 | approved and active have labels of their own; every other status reads "awaiting reply" |
| SpaceDetail.SubmitRequest | src/pages/SpaceDetail.tsx:71-76 | a signed-out visitor is sent to sign in. Otherwise the row names the space and the gardener, and the note is the trimmed text, or null exactly when the text is blank |
| SpaceDetail.SubmittedRequestIsShown | src/pages/SpaceDetail.tsx:74-82 | after a successful submission the refreshed card shows the new request, not the form |
| SpaceDetail.NextIndex | src/pages/SpaceDetail.tsx:86 | the next index stays inside the gallery |
| SpaceDetail.PrevIndex | src/pages/SpaceDetail.tsx:87 | the previous index stays inside the gallery |
| SpaceDetail.NextIndexSteps | src/pages/SpaceDetail.tsx:86 | next moves one photo on, and from the last photo to the first |
| SpaceDetail.PrevIndexSteps | src/pages/SpaceDetail.tsx:87 | previous moves one photo back, and from the first photo to the last |
| SpaceDetail.ArrowsInverse | src/pages/SpaceDetail.tsx:86-87 | previous after next, and next after previous, return to the same photo |
| SpaceDetail.SpaceDetailView.constructor | src/pages/SpaceDetail.tsx:23-31 | the page starts with no space, no photos, index 0, not occupied and no open request |
| SpaceDetail.SpaceDetailView.Fetch | src/pages/SpaceDetail.tsx:38-69 | a missing space sends the visitor home and changes nothing. Otherwise it sets the space, owner name, gallery and occupancy, and looks up the open request only for a signed-in gardener. Occupancy equals the page's single-row check whenever at most one request is active |
| SpaceDetail.SpaceDetailView.NextImage | src/pages/SpaceDetail.tsx:86 | the index moves forward within the gallery |
| SpaceDetail.SpaceDetailView.PrevImage | src/pages/SpaceDetail.tsx:87 | the index moves back within the gallery |
| SpaceForm.ParseArea | src/pages/SpaceForm.tsx:61-66 | a missing or empty size loads as an empty amount in ตร.ม. When split into two or more pieces, neither amount nor unit contains a space |
| SpaceForm.ParseAreaWithoutSpace | src/pages/SpaceForm.tsx:61-65 | a stored size of one piece loads whole, in the default unit |
| SpaceForm.AreaRoundTrip | src/pages/SpaceForm.tsx:61-66 | a size saved as "amount unit" (line 145) loads back as the same amount and unit when neither contains a space |
| SpaceForm.ToggleFlipsItem | src/pages/SpaceForm.tsx:91-95 | toggling an amenity flips its membership |
| SpaceForm.ToggleKeepsOthers | src/pages/SpaceForm.tsx:91-95 | toggling leaves every other amenity's membership unchanged |
| SpaceForm.ToggleTwiceRestores | src/pages/SpaceForm.tsx:91-95 | toggling an unlisted amenity twice restores the very same list |
| SpaceForm.RemoveAtKeepsPairs | src/pages/SpaceForm.tsx:110-113 | removing one position from the photos and the previews keeps them the same length and each photo beside its preview |
| SpaceForm.Successes | src/pages/SpaceForm.tsx:128-138 | the uploaded URLs are at most one per file, and each comes from a successful upload |
| SpaceForm.SuccessesAllOk | src/pages/SpaceForm.tsx:128-138 | when every upload succeeds, each file contributes its URL in order |
| SpaceForm.OrDefault | src/pages/SpaceForm.tsx:72-82 | `x \|\| fallback` on a text column |
| SpaceForm.LoadFillsDefaults | src/pages/SpaceForm.tsx:70-83 | loading never leaves the price unit empty, and uses บาท/เดือน exactly when the stored unit is missing, empty or already that. Missing amenities become `[]`. A record whose optional columns are all null loads as the blank form plus its title and address |
| SpaceForm.LoadedGallery | src/pages/SpaceForm.tsx:85 | a non-null gallery column is used as is, even when empty; otherwise the main image if present |
| SpaceForm.SavedRowReloads | src/pages/SpaceForm.tsx:140-148 | a row the form saved loads back with the same photos (whatever its main image), and with the same amount and unit when neither contains a space |
| SpaceForm.SpaceFormPage.constructor | src/pages/SpaceForm.tsx:28-52 | a new form is blank, in ตร.ม. and บาท/เดือน, with no photos |
| SpaceForm.SpaceFormPage.Load | src/pages/SpaceForm.tsx:58-89 | a found record fills the area, the fields and the stored photos; otherwise nothing changes |
| SpaceForm.SpaceFormPage.ToggleAmenityField | src/pages/SpaceForm.tsx:91-96 | only the amenities change, and only the toggled item's membership flips |
| SpaceForm.SpaceFormPage.AddImages | src/pages/SpaceForm.tsx:98-108 | a pick that would exceed 5 photos is refused. Otherwise photos and previews grow by the same amount and the total stays at most 5 |
| SpaceForm.SpaceFormPage.RemoveNewImage | src/pages/SpaceForm.tsx:110-113 | the index leaves both lists and they stay the same length |
| SpaceForm.SpaceFormPage.RemoveExistingImage | src/pages/SpaceForm.tsx:115-117 | the index leaves the stored photos |
| SpaceForm.SpaceFormPage.Submit | src/pages/SpaceForm.tsx:119-150 | refused exactly when the trimmed title or address is empty. Otherwise: gallery = stored photos followed by successful uploads in order; main image = its first photo or null; area = "amount unit"; owner = the user |
| GardenerDashboard.ActiveFarmIsFirstActive | src/pages/GardenerDashboard.tsx:26 | the active farm exists exactly when some request is active, and is the first one |
| GardenerDashboard.SearchKeepsMatchesInOrder | src/pages/GardenerDashboard.tsx:91-94 | a space is kept exactly when its lower-cased title or address contains the lower-cased term, in listing order |
| GardenerDashboard.EmptySearchKeepsAll | src/pages/GardenerDashboard.tsx:91-94 | an empty term keeps every space |
| GardenerDashboard.SearchIgnoresCase | src/pages/GardenerDashboard.tsx:91-94 | searching for the lower-cased term gives the same result |
| GardenerDashboard.CeilDiv | src/pages/GardenerDashboard.tsx:84-86 | `Math.ceil(a / b)` is the least whole `r` with `r * b >= a` |
| GardenerDashboard.TotalDays | src/pages/GardenerDashboard.tsx:84 | the lease lasts at least one day |
| GardenerDashboard.DaysRemaining | src/pages/GardenerDashboard.tsx:79-89 | without an end date the countdown is 0 days and 0 %; the days left are never negative and the percentage is within 0..100 |
| GardenerDashboard.DaysLeftCoversRest | src/pages/GardenerDashboard.tsx:86 | the days left cover the time left and overshoot it by less than a day; they are zero exactly when the end has come |
| GardenerDashboard.ProgressEnds | src/pages/GardenerDashboard.tsx:81-87 | measured from `started_at`, else `created_at`, the bar is empty before the start and full once the lease's days have passed |
| GardenerDashboard.FormatDateRange | src/pages/GardenerDashboard.tsx:73-77 | the range reads "not specified" exactly when either end is missing |
| GardenerDashboard.OwnerIds | src/pages/GardenerDashboard.tsx:50 | every listed owner appears once, and only listed owners appear |
| GardenerDashboard.OwnerNameResolution | src/pages/GardenerDashboard.tsx:56 | the first profile with the owner's id decides: its name when present, "unnamed" when absent or empty; without such a profile the name is "unnamed"; any resolved name belongs to a profile with the owner's id |
| GardenerDashboard.WithOwnerNames | src/pages/GardenerDashboard.tsx:54-57 | each space keeps its place and gets its owner's resolved name |
| GardenerDashboard.StatusLabelsDistinguish | src/pages/GardenerDashboard.tsx:300 | active, completed and approved have labels of their own; pending and rejected read "under review" |
| LandownerDashboard.Lookup | src/pages/LandownerDashboard.tsx:221 | `counts[id]` is undefined exactly when `id` is not a key |
| LandownerDashboard.PutKeys | src/pages/LandownerDashboard.tsx:55 | setting a property adds a new key at the end and keeps existing keys in place |
| LandownerDashboard.PutThenLookup | src/pages/LandownerDashboard.tsx:55 | after `counts[id] = n`, `id` reads `n` and every other key reads as before |
| LandownerDashboard.CountsForUnique | src/pages/LandownerDashboard.tsx:48-56 | storing one count per id never stores a key twice |
| LandownerDashboard.CountsForKeys | src/pages/LandownerDashboard.tsx:48-56 | the keys of the counts object are exactly the space ids |
| LandownerDashboard.CountsForLookup | src/pages/LandownerDashboard.tsx:48-56 | every space id reads its own number of pending requests, even when ids repeat |
| LandownerDashboard.CountsForValues | src/pages/LandownerDashboard.tsx:48-56 | with distinct ids, `Object.values` lists the counts in the order of the spaces |
| LandownerDashboard.CountPending | src/pages/LandownerDashboard.tsx:48-56 | the loop builds the counts object of the specification. Every owned space reads its own number of pending requests. The keys are exactly the space ids, each once. With distinct ids, the values are the counts in order |
| LandownerDashboard.CountsAddUp | src/pages/LandownerDashboard.tsx:77 | the per-space counts add up to the pending requests on the owner's spaces |
| LandownerDashboard.TotalRequestsAfterLoad | src/pages/LandownerDashboard.tsx:77 | after loading, `totalRequests` is the number of pending requests on the owner's spaces |
| LandownerDashboard.ActiveSpaces | src/pages/LandownerDashboard.tsx:76 | `activeSpaces` never exceeds `totalSpaces` |
| LandownerDashboard.ActiveSpacesFull | src/pages/LandownerDashboard.tsx:75-76 | the two are equal exactly when every space is active |
| LandownerDashboard.WithActiveFlipped | src/pages/LandownerDashboard.tsx:63 | the space with that id gets `!current` and every other space is unchanged |
| LandownerDashboard.ToggleTwiceRestores | src/pages/LandownerDashboard.tsx:63 | hiding then showing (or the reverse) restores the list |
| LandownerDashboard.ToggleMovesActiveCount | src/pages/LandownerDashboard.tsx:63 | when no other space shares the id, one toggle moves `activeSpaces` by exactly one in the right direction |
| LandownerDashboard.NoticeIffPending | src/pages/LandownerDashboard.tsx:221 | after loading, a space shows "new requests" exactly when some request on it is pending |
| LandownerDashboard.LandownerDashboardPage.constructor | src/pages/LandownerDashboard.tsx:19-21 | the dashboard starts with no spaces and no counts |
| LandownerDashboard.LandownerDashboardPage.FetchSpaces | src/pages/LandownerDashboard.tsx:38-60 | on success the spaces are replaced and the counts object is the one the counting loop builds for them, and `totalRequests` is the pending total; on failure nothing changes |
| LandownerDashboard.LandownerDashboardPage.ToggleActive | src/pages/LandownerDashboard.tsx:62-65 | the shown list flips the one space at once |
| LandownerDashboard.LandownerDashboardPage.ActiveSpaceCount | src/pages/LandownerDashboard.tsx:75-76 | active spaces never outnumber all spaces |
| Landing.GreetingPartition | src/pages/Landing.tsx:16-20 | each hour gets exactly one greeting (morning before 12, afternoon before 17, evening after); they never go back as the hour advances, and all three texts differ |
| Landing.ScrolledThreshold | src/pages/Landing.tsx:22 | exactly 20 pixels is not scrolled, and scrolling further keeps the state |
| Landing.DashboardLinkByRole | src/pages/Landing.tsx:105 | landowners get the landowner dashboard; everyone else, including an account without a role, the gardener's |
| Landing.DisplayName | src/pages/Landing.tsx:98 | the profile name when present; otherwise the part of the e-mail before `@`; nothing without either |
| Landing.DisplayNameFromEmail | src/pages/Landing.tsx:98 | with no profile name, `local@domain` greets `local` |
| Landing.DisplayNameWithoutAt | src/pages/Landing.tsx:98 | an address without `@` is used whole |

## Findings

| source | as written | input that shows it | evidently intended | confidence | as-written member | corrected member |
|---|---|---|---|---|---|---|
| src/pages/SpaceDetail.tsx:57-58 | occupancy comes from `maybeSingle()` over the space's active requests, which yields no row when two match | two approved requests on one space, both started. `updateStatus` (src/pages/ChatPage.tsx:94-107) writes `active` without checking occupancy. The page then reports the space as free and offers the form to other gardeners | the space is occupied when at least one request on it is active | medium: depends on the client library returning no row for several matches; not executed | SpaceDetail.OccupiedAsWrittenMissesTwoActive | SpaceDetail.IsOccupiedIff |

`SpaceDetailView.Fetch` uses the corrected `IsOccupied`, and its contract
states that this agrees with the page as written whenever at most one request
on the space is active. The lookup of the
gardener's own open request (line 61) is modelled as written, with the same
`maybeSingle()` behaviour: if a gardener had two open requests on one space,
neither would be found (`SpaceDetail.OpenRequest`).

## Left out

- Every Supabase call: queries, inserts, updates, deletes, storage uploads and public URLs. Tables are sequences passed in, and each write's outcome is a boolean or an option.
- The realtime channel's subscription and removal, the scroll `setTimeout`, the live handler's profile lookup, and async interleaving. Only the sequential append is modelled.
- Toasts, navigation (beyond "go home" and "go to sign in" results), the share button's clipboard, `URL.createObjectURL` previews (passed in as values), and `Math.random` file names.
- Locale date formatting in `formatDateRange` and the chat timestamps. Only the "not specified" guard is modelled.
- The price field: `parseFloat` on save and `toString` on load are floating-point library behaviour.
- SpaceDetail.SpaceDetailView.Fetch: sets occupancy by the corrected `IsOccupied`. With two or more active requests the page as written reports the space as free (`OccupiedAsWritten`); see Findings.
- ChatPage.OrderByCreatedAtOfSorted: the database fixes no order among messages with equal `created_at`. `OrderByCreatedAt` keeps them in the order they were appended. So for a log with ties, this lemma and `ReloadHistory`'s exact result describe that choice, not a database promise. `OrderByCreatedAtDetermined` covers logs without ties, where every ascending order is the same.
- Other pages' effects on an open chat page: only a status write from elsewhere is modelled (`WrittenElsewhere`). Its notice reaches the page through `ReceiveLive` like any other message.
- GardenerDashboard.DaysRemaining: the percentage is an exact `real`, not a JavaScript double.
- Text.ToLower: lower-cases ASCII letters only, because full Unicode case mapping is a library table.
- Message ids, sender profiles and avatars on the chat page, and the profile lookups for avatars on the dashboards.
- Approving, rejecting and cancelling requests, which happen on a page that is not part of this model. `Domain.Step` includes `pending → approved` and `pending → rejected` only as assumed edges.
- An atomic occupancy guard on activation, and any race between two gardeners. The source has neither, and the model does not pretend otherwise.
- Row-level access rules of the database, and the database's default `pending` status for a new request. `SpaceDetail.SubmittedRequestIsShown` assumes the new row is stored as pending.
- A failed pending-count query, which the page records as 0. `LandownerDashboard.CountPending` counts from the table as given.
- LandownerDashboard.LandownerDashboardPage.ToggleActive: the database update is awaited, but its result is ignored. The list is flipped before the write and never rolled back, so the write's outcome is not modelled.
- Deleting a space (`handleDelete`) and the profile loading on each page: database calls followed by a reload, with no logic of their own.
- `src/components/GuideSection.tsx`: static content with one role branch.
- `src/App.tsx`: a route table for the router library.
