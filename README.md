# Gym members management, modelled in Dafny

A React front end for a gym's member list, talking to a JSON REST server. The member
table lets staff search members across all fields, with matches highlighted. Each member
gets a status badge (Frozen, Expired or Active). Staff open a form to add or edit a member,
and can delete a member after a confirmation. A deleted member moves into a delete history,
and the history panel lists the last five, each with a Restore button. Four files make up
the behaviour:

- `MemberTable.jsx`: the search normalisation, the filter, the highlighter, the status
  rule, the results line, and the view state (search text, modal flag, member being
  edited) with its handlers.
- `MemberModal.jsx`: the form's initial state, the edit prefill, the create defaults with
  a one-year expiry, the change handler and the submitted payload.
- `DeleteHistoryPanel.jsx`: which entries are listed, when the panel and its messages
  show, and what Restore sends.
- `api/members.js`: the HTTP requests each helper sends, in order, stopping at the first
  failure.

The model is split into modules:

- `Text`: characters, trimming, `includes`, decimal text, `parseInt`.
- `Js`: JavaScript values, truthiness, `String(v)`, and records as ordered key/value lists
  with object-spread update.
- `Calendar`: civil dates, `setFullYear(year + 1)`, the date part of `toISOString`.
- `MemberSearch`: the pure parts of the table.
- `MemberTable`: the view-state class and the delete handler.
- `MemberModal`: the form class and its pure defaults and payload.
- `DeleteHistoryPanel`: the history panel.
- `MembersApi`: the request lists, an abstract JSON server, and a client class that logs
  every request it sends.

Where the code's behaviour differs from what the screens suggest, the model follows the
code:

- An empty search does not keep every member. A member whose values are all falsy (`0`,
  `false`, `''`, `null`) is hidden even then (`MemberSearch.EmptySearchKeepsTruthy`).
- A space typed at the end of the search box vanishes at once: the box is bound to the
  trimmed text (`MemberSearch.TypedSpaceIsDropped`).
- A successful save closes the modal but leaves `editingMember` set. Only `closeModal`
  clears it, which the Cancel and close (×) buttons call (`MemberTable.TableView.OnSaved`).
  The next opening overwrites it, so this is not visible.
- Restore deletes `/deleteHistory/{row + 1}`: the history entry whose id reads as the row
  number plus one, if there is one. That number runs from 1 to 5 and does not depend on
  the entry (`DeleteHistoryPanel.RestoreDeletesByRow`). The entry `deleteMember` posts is
  the member plus a `deletionDate`, so it keeps the member's own id, and the DELETE
  addresses the entry whose copied member id is the row number plus one. Deleting member
  `{id: 7}` into an empty history and restoring it re-adds the member, leaves its entry
  listed, and rejects (`DeleteHistoryPanel.DeleteThenRestore`,
  `DeleteHistoryPanel.DeleteThenRestoreSeven`). Only if the ids were 1, 2, 3, ... by
  position would the row's own entry go, and then only while at most five entries exist
  (`DeleteHistoryPanel.RestoreRemovesRowPosition`).
- `handleSubmit`'s conversion of the guest-pass count does not clamp: the text `-3`
  becomes `-3` (`MemberModal.NegativeGuestPasses`). The browser's own validation of
  `min="0"` is not modelled (see below).

## Model

| member | source | states |
|---|---|---|
| MemberSearch.NormalizeSearchShape | src/components/MemberTable.jsx:46-48 | the stored search text has no upper-case letter and no white space at either end |
| MemberSearch.NormalizeSearchIdempotent | src/components/MemberTable.jsx:46-48 | normalising a text already in that form changes nothing |
| MemberSearch.TypedSpaceIsDropped | src/components/MemberTable.jsx:46-48 | appending a white-space character to a normalised search and normalising again gives the same search back |
| MemberTable.TableView.HandleSearch | src/components/MemberTable.jsx:46-48 | the search text becomes the normalised input and stays in normal form; the modal state is untouched |
| MemberTable.TableView.constructor | src/components/MemberTable.jsx:10-12 | starts with an empty search, the modal closed and nobody being edited |
| MemberSearch.FilterIsSubsequence | src/components/MemberTable.jsx:50-54 | the filtered rows are members in their original order and never more than the members |
| MemberSearch.FilterCounts | src/components/MemberTable.jsx:50-54 | a record appears in the result as often as in the input if it matches, and not at all otherwise |
| MemberSearch.FilterMembership | src/components/MemberTable.jsx:50-54 | a member is kept iff one of its values is truthy and the lower-cased text of that value contains the search |
| MemberSearch.EmptySearchKeepsTruthy | src/components/MemberTable.jsx:50-54 | with an empty search a member matches iff one of its values is truthy |
| MemberTable.TableView.Shown | src/components/MemberTable.jsx:50-54 | the rows shown for the current search are an ordered selection of the cached members |
| Js.TruthyHasToString | src/components/MemberTable.jsx:52 | the `value &&` guard means `toString` is only called on values that have it |
| Text.IncludesIff | src/components/MemberTable.jsx:52 | `includes` holds iff the needle occurs at some position of the text |
| MemberSearch.HighlightText | src/components/MemberTable.jsx:56-60 | an empty search returns the value itself; otherwise `null` or `undefined` throws and anything else becomes the rendered scan of its text |
| MemberSearch.ScanUnmark | src/components/MemberTable.jsx:56-60 | taking the inserted spans out again gives the original text |
| MemberSearch.ScanHitsMatch | src/components/MemberTable.jsx:56-60 | every wrapped piece equals the search ignoring case and keeps its own casing |
| MemberSearch.ScanPlainsDoNotMatch | src/components/MemberTable.jsx:56-60 | no match begins at a character left unwrapped by the left-to-right scan |
| MemberSearch.NoMatchRendersUnchanged | src/components/MemberTable.jsx:56-60 | a text without any occurrence of the search is returned unchanged |
| MemberTable.TableView.OpenModal | src/components/MemberTable.jsx:62-65 | the modal opens on the given member, or on none for Add; the search is kept, still in normal form |
| MemberTable.TableView.CloseModal | src/components/MemberTable.jsx:67-70 | the modal closes and nobody is being edited; the search is kept, still in normal form |
| MemberTable.FindMember | src/components/MemberTable.jsx:73 | finds a member iff one has the id, and then the first such member |
| MemberTable.HandleDelete | src/components/MemberTable.jsx:72-78 | a delete of the found member is issued iff a member has the id and the confirmation is accepted |
| MemberTable.HandleDeleteRequests | src/components/MemberTable.jsx:38-44 | a confirmed delete sends the DELETE and then the history POST, and refreshes both lists |
| MemberTable.TableView.HandleSubmit | src/components/MemberTable.jsx:80-86 | an update of the edited member's id exactly when someone is being edited, an add otherwise |
| MemberTable.TableView.OnSaved | src/components/MemberTable.jsx:22-36 | a saved add or update closes the modal and keeps the edited member; nothing else changes |
| MembersApi.Invalidates | src/components/MemberTable.jsx:22-44 | every mutation refreshes the member list, and the history too exactly for delete and restore |
| MemberSearch.GetStatus | src/components/MemberTable.jsx:88-94 | Frozen iff `freeze` is truthy, else Expired iff the expiry date is before now, else Active; the class is `status-` plus the lower-cased text |
| MemberSearch.ResultsInfo | src/components/MemberTable.jsx:120-126 | Loading while loading, otherwise the no-results line when nothing matches, otherwise the shown count, between 1 and the total, and the total |
| MemberModal.MemberForm.constructor | src/components/MemberModal.jsx:5-15 | the form starts as the initial state |
| MemberModal.Prefill | src/components/MemberModal.jsx:18-29 | fails iff `freeze` is null or undefined; otherwise copies seven fields, turns a falsy trainer into empty text and `freeze` into its text |
| Js.MethodToString | src/components/MemberModal.jsx:27 | `v.toString()` fails exactly on null and undefined and otherwise gives `String(v)` |
| MemberModal.CreateDefaults | src/components/MemberModal.jsx:30-44 | empty text fields, not frozen, no guest passes, joined today, and expiring on the date one year on |
| Calendar.NextYear | src/components/MemberModal.jsx:32-33 | a valid date exactly one year later |
| Calendar.NextYearIsMakeDay | src/components/MemberModal.jsx:32-33 | the new date is the day that year plus one, same month and day, denotes, so Feb 29 runs on to Mar 1 |
| Calendar.NextYearSpan | src/components/MemberModal.jsx:32-33 | the step is 366 days iff a Feb 29 falls in between, else 365 |
| Calendar.IsoDateRoundTrip | src/components/MemberModal.jsx:38-40 | the `YYYY-MM-DD` text of a date with a four-digit year reads back as that date |
| MemberModal.DefaultsExamples | src/components/MemberModal.jsx:31-40 | 2024-01-10 gives 2024-01-10 and 2025-01-10; 2024-02-29 expires on 2025-03-01 |
| MemberModal.MemberForm.Sync | src/components/MemberModal.jsx:17-46 | installs the defaults for Add, the prefill for Edit, and writes nothing to the form state when the prefill throws |
| MemberModal.With | src/components/MemberModal.jsx:48-51 | the named field takes the value and the other eight keep theirs |
| MemberModal.MemberForm.HandleChange | src/components/MemberModal.jsx:48-51 | the control's field holds the typed text and no other field changes |
| MemberModal.RecordOfLaws | src/components/MemberModal.jsx:56 | the spread form has exactly the form's keys in order, each with its field's value |
| MemberModal.PayloadShape | src/components/MemberModal.jsx:53-60 | the payload has the nine form keys in order and no `id`; `freeze` is true iff the form says exactly `"true"`; `guestPasses` is the parsed integer or 0; the rest pass through |
| MemberModal.PayloadKeys | src/components/MemberModal.jsx:55-59 | the two overrides keep the key order and add no key |
| MemberModal.MemberForm.HandleSubmit | src/components/MemberModal.jsx:53-60 | hands back that payload and leaves the form unchanged |
| MemberModal.NegativeGuestPasses | src/components/MemberModal.jsx:58 | the conversion does not clamp: the text `-3` becomes -3 |
| MemberModal.EmptyGuestPasses | src/components/MemberModal.jsx:58 | an emptied field submits 0 |
| Text.ParseIntOfIntToString | src/components/MemberModal.jsx:58 | `parseInt(String(n))` is `n` for every integer |
| MemberModal.PrefillSubmitRoundTrip | src/components/MemberModal.jsx:17-60 | editing a member with a boolean `freeze` and an integer `guestPasses` and saving unchanged writes back the same values and the copied fields |
| MemberModal.DefaultsPayload | src/components/MemberModal.jsx:34-59 | the create defaults submit `freeze: false` and `guestPasses: 0` |
| MemberTable.EditCancelAdd | src/components/MemberTable.jsx:210-216 | through the table's handlers: edit a member, change a field, close, press Add; the newly mounted form holds the creation defaults and the view is open on no member |
| DeleteHistoryPanel.History | src/components/DeleteHistoryPanel.jsx:8 | no data yet reads as an empty history |
| DeleteHistoryPanel.SliceLaws | src/components/DeleteHistoryPanel.jsx:40 | `slice(start)` is a suffix: the last `-start` elements, or all when fewer, for a negative start; everything from `start` on otherwise |
| DeleteHistoryPanel.DisplayedIsLastFive | src/components/DeleteHistoryPanel.jsx:40 | the rows are the last five entries, or all when fewer, oldest first |
| DeleteHistoryPanel.ListBody | src/components/DeleteHistoryPanel.jsx:35-58 | loading first, then the empty message iff there are no entries, else one to five rows |
| DeleteHistoryPanel.MessagesHidden | src/components/DeleteHistoryPanel.jsx:29-38 | the empty message, and the first-load message, sit in a hidden panel |
| DeleteHistoryPanel.HandleRestore | src/components/DeleteHistoryPanel.jsx:21-26 | a restore of that row and entry iff the confirmation is accepted |
| DeleteHistoryPanel.ClickRestore | src/components/DeleteHistoryPanel.jsx:40-51 | the button of row `i` restores the `i`-th displayed entry with index `i` |
| DeleteHistoryPanel.RestoreDeletesByRow | src/api/members.js:32-35 | row `i` re-adds its entry and deletes history id `i + 1` (1 to 5), which is the entry's own position iff at most five entries exist |
| DeleteHistoryPanel.RestoreRemovesRowPosition | src/api/members.js:32-35 | if the history's ids were 1, 2, 3, ... by position (which `deleteMember` does not produce), restoring row `i` would succeed, append its entry to the members and remove the `i`-th oldest entry |
| DeleteHistoryPanel.DeleteThenRestore | src/api/members.js:26-35 | a member deleted into an empty history and restored from the one row: back in the members; its entry, which keeps the member's id, goes iff that id reads `1`, else the restore rejects and the entry stays |
| DeleteHistoryPanel.DeleteThenRestoreSeven | src/api/members.js:26-35 | member `{id: 7}` deleted and restored: it is in the members again, its entry is still in the history, and the restore rejects |
| DeleteHistoryPanel.FindNumbered | src/api/members.js:34 | in a history numbered by position, id `i + 1` finds the entry at position `i` |
| Calendar.LeapDaySpan | src/components/MemberModal.jsx:32-33 | after a leap year's Feb 29 the next year has none, and its Mar 1 is 366 days on |
| Calendar.SameMonthNextYear | src/components/MemberModal.jsx:32-33 | the same month and day a year on is 366 days later iff a Feb 29 falls in between |
| MembersApi.RouteCollectionUrl | src/api/members.js:4-14 | a collection URL reaches that collection |
| MembersApi.RouteItemUrl | src/api/members.js:21-24 | an item URL reaches that collection and id |
| MembersApi.FindId | src/api/members.js:22 | the first record whose id has that text, or none when no record has it |
| MembersApi.FetchReturnsCollection | src/api/members.js:6-14 | each fetch is one GET returning the collection unchanged |
| MembersApi.UpdateReplaces | src/api/members.js:21-24 | a PUT replaces the member with that id by the sent record, keeping the id |
| MembersApi.DeleteMemberShape | src/api/members.js:26-30 | DELETE of the member's id, then POST of the member with `deletionDate` to the history |
| Js.PutLaws | src/api/members.js:29 | a spread override sets the key, leaves every other key, and adds the key at the end only if it was new |
| MembersApi.RunIssuesPrefix | src/api/members.js:26-35 | the requests reaching the server are a prefix of the list, cut short only after a failure |
| MembersApi.DeleteStopsWhenDeleteFails | src/api/members.js:26-30 | a failed DELETE sends no history POST and changes nothing |
| MembersApi.DeleteMovesMember | src/api/members.js:26-30 | with both requests delivered, the member leaves the list and its entry joins the history |
| MembersApi.RestoreEffect | src/api/members.js:32-35 | the record is re-added as it is; the history entry goes iff one has id `index + 1`, otherwise the promise rejects after the re-add |
| MembersApi.Client.Send | src/api/members.js:7 | logs the request and moves the store as delivery dictates |
| MembersApi.Client.FetchMembers | src/api/members.js:6-9 | logs the GET and returns what the server answers |
| MembersApi.Client.FetchDeleteHistory | src/api/members.js:11-14 | logs the GET and returns what the server answers |
| MembersApi.Client.AddMember | src/api/members.js:16-19 | logs the POST and returns what the server answers |
| MembersApi.Client.UpdateMember | src/api/members.js:21-24 | logs the PUT and returns what the server answers |
| MembersApi.Client.DeleteMember | src/api/members.js:26-30 | sends DELETE then POST, stopping at a failure; succeeds iff the last request sent succeeds |
| MembersApi.Client.RestoreMember | src/api/members.js:32-35 | sends POST then DELETE, stopping at a failure; succeeds iff the last request sent succeeds |

## Left out

- The HTTP transport and the server are an abstract store. A `GET` returns a collection. A
  `POST` appends the body unchanged, so server-assigned ids are not modelled. A `PUT`
  replaces the first record with the id and keeps its id. A `DELETE` removes the first
  such record. Transport failures are a set of request positions that fail.
- React Query's caching, retries and refetch timing are left out. Invalidation is the set
  of lists a mutation refreshes. Mutations are taken one at a time, so concurrent
  mutations are not modelled.
- HTML constraint validation is not modelled: `required`, `min="0"` and `type="email"` on
  the form's controls can stop the browser from firing the submit event at all. The model
  takes every submission to reach `handleSubmit`.
- MemberModal.MemberForm.Sync: when `freeze.toString()` throws, the model writes nothing
  to the form state. The TypeError escapes the effect, and what React then does with it
  (unmounting, an error overlay) is not modelled.
- `window.confirm` is a boolean input. `alert` changes no state and is left out.
- `new Date()` is an input: the current time for the status rule and today's date for the
  create defaults. Time zones are not modelled: the local date and the date part of
  `toISOString` are taken to agree.
- MemberSearch.GetStatus: `new Date(member.expiryDate)` is an input function from the
  stored value to a time or Invalid Date. Date-string parsing is not modelled.
- `toLocaleString()` for `deletionDate` is an opaque string input.
- MemberSearch.HighlightText: stated only for searches without regular-expression
  metacharacters. Full `RegExp` semantics, and the exception an invalid pattern raises,
  are not modelled.
- Text.Lower: lower-cases ASCII letters only. Unicode case mapping is not modelled.
- Numbers are integers. `String` of fractions and exponents, and the hexadecimal prefix
  `parseInt` accepts, are not modelled.
- Records keep their keys in insertion order. `Object.values` listing integer-like keys
  first is not modelled.
- Rendering is not modelled: the table markup, the trainer placeholder `—`, the badge
  markup, and the `dangerouslySetInnerHTML` insertion of the highlighted text.
- The `showHistory` flag and its toggle button have no effect on the screen, and the
  history panel's close button has no handler.
- `App.jsx`, `Navbar.jsx` and `SearchBox.jsx` are not part of this model.
