# Notification feed of the CRM layout, in Dafny

This project models the state that the CRM's `Layout` component keeps for its
header, and proves properties of that state. The state is:

- the signed-in user;
- the dark-mode flag;
- the list of fetched notifications;
- the unread counter shown on the bell.

The component changes that state through four handlers:

- `loadNotifications` fetches the user's notifications. It replaces the list and recomputes the counter.
- `markNotificationAsRead(id)` updates one notification in the store. Then it marks every local entry with that id read and decrements the counter, never below 0.
- `markAllAsRead` issues one store update per unread entry, one after another. Then it marks every entry read and sets the counter to 0.
- `toggleDarkMode` flips the flag. It writes the user's preferences back with `dark_mode` replaced.

Two header labels are modelled too: the badge on the bell and the avatar initials.

The record store is modelled as an oracle (`Backend.Store`). The store is fixed when it is created. It keeps a log of every call the
layout makes, in order. For each call number, it says whether that call returns or
throws and, for a fetch, which list it returns. A call that throws is caught by
the handler, which then behaves as each method's contract states.

Module layout:

- `Notifications` (notifications.dfy): the record and the pure list expressions: the unread filter, the two `map`s and the counter update.
- `Backend` (backend.dfy): the store oracle, its call log, and the reference semantics of the sequential update loop.
- `Preferences` (preferences.dfy): the user record, the truthiness of preference values, and the dark-mode preference merge.
- `HeaderLabels` (header.dfy): the badge label, and `split(' ')`/`join` with the initials built on them.
- `Layout` (layout.dfy): class `LayoutState` with the four handlers as methods, and the update loop of `markAllAsRead` as a method.

The unread counter is **not** an invariant of the component. `markNotificationAsRead`
decrements the counter whether or not the id names an unread entry. `Consistent()`
states that the counter equals the number of unread entries. A successful load and a
successful mark-all both establish it. `Notifications.MarkReadConsistentIff` states
exactly when a successful mark-read keeps it: one unread entry carried the id, or
nothing was unread.

Two behaviours of the handlers on failure are easy to misread:

- `markNotificationAsRead` is not optimistic. It awaits `Notification.update`, and changes local state only if that call returns (Layout.js:161-166). `Layout.LayoutState.MarkRead` models this.
- In `markAllAsRead`, the first update that throws ends the loop, and no later update is issued. The catch then leaves the list and the counter untouched (Layout.js:173-182). The updates issued before the failure stand. `Layout.LayoutState.MarkAll` and `Backend.ThirdOfFiveUpdatesThrows` model this.

## Model

| member | source | states |
|---|---|---|
| `Notifications.Unread` | Layout.js:174 | the filter is never longer than the list, is empty on an empty list, and holds exactly the unread entries |
| `Notifications.UnreadOne` | Layout.js:174 | a one-entry list keeps its entry exactly when it is unread |
| `Notifications.UnreadAppend` | Layout.js:174 | the filter distributes over concatenation; with the empty and one-entry cases this makes it the unread entries in list order, each kept once |
| `Notifications.UnreadCount` | Layout.js:110 | the count is at most the list length, 0 on an empty list, 1 for one unread entry and 0 for one read entry, and 0 exactly when every entry is read |
| `Notifications.UnreadCountAppend` | Layout.js:110 | the count is additive over concatenation, so it is the number of entries with `read == false` |
| `Notifications.UnreadWithId` | Layout.js:163-166 | the unread entries with one id never outnumber all unread entries; there are none exactly when every entry with that id is read |
| `Notifications.MarkedRead` | Layout.js:163-165 | same length and order; entries with the id become read with every other field kept; all other entries are unchanged |
| `Notifications.AllRead` | Layout.js:178 | same length and order; every entry is the original with `read` set; nothing is left unread |
| `Notifications.Decrement` | Layout.js:166 | the counter drops by one when positive and stays at 0 otherwise, so it never goes negative |
| `Notifications.MarkedReadUnreadCount` | Layout.js:163-165 | marking an id read lowers the true unread count by exactly the number of unread entries carrying that id |
| `Notifications.MarkReadConsistentIff` | Layout.js:163-166 | the decremented counter equals the new true count if and only if exactly one unread entry carried the id, or nothing was unread |
| `Notifications.MarkReadOfReadIdUndercounts` | Layout.js:160-166 | marking an absent or already-read id leaves the list unchanged, and a positive counter ends one below the true count |
| `Notifications.MarkedReadIdempotent` | Layout.js:163-165 | marking the same id twice gives the same list as marking it once |
| `Notifications.MarkingKeepsIds` | Layout.js:163-178 | neither marking one id nor marking all read changes the ids or their order |
| `Notifications.AllReadOfAllRead` | Layout.js:178 | on a list with nothing unread, marking all read changes nothing |
| `Notifications.UnreadOfNoneRead` | Layout.js:174 | on a list with nothing read, the unread filter returns the whole list |
| `Notifications.UnreadIds` | Layout.js:174-176 | the ids the loop visits are exactly the ids of unread entries |
| `Backend.MarkReadCalls` | Layout.js:175-177 | one update call per id, same length, same order |
| `Backend.CompletesIff` | Layout.js:175-177 | the loop completes exactly when every one of its calls returns |
| `Backend.SequentialMarkReadsStep` | Layout.js:175-177 | one loop step issues the call for the current id, and the loop goes on only if that call returned |
| `Backend.SequentialMarkReadsIsPrefix` | Layout.js:175-177 | whatever the store does, the loop issues a prefix of the per-id calls, in order |
| `Backend.SequentialMarkReadsComplete` | Layout.js:174-177 | when every call returns, the loop issues exactly one update per id, in order |
| `Backend.SequentialMarkReadsStop` | Layout.js:175-181 | when the call for the i-th id is the first to throw, exactly the calls for ids 0..i were issued, and the loop did not complete |
| `Backend.ThirdOfFiveUpdatesThrows` | Layout.js:172-182 | five pending ids with the third update throwing: three calls are issued and the loop does not complete |
| `Backend.Store.Filter` | Layout.js:104-108 | the fetch is logged with its user id, sort key and limit; it yields rows exactly when the oracle says that call returns, and then the oracle's rows for it |
| `Backend.Store.MarkRead` | Layout.js:162 | the update is logged, and returns exactly when the oracle says that call succeeds |
| `Backend.Store.SavePreferences` | Layout.js:148-153 | the preference write is logged with the preferences written |
| `Preferences.StoredDarkMode` | Layout.js:132 | the initial flag is true only when the user's preferences hold a truthy `dark_mode`; when the key is there, the flag is its truthiness |
| `Preferences.WithDarkMode` | Layout.js:148-153 | the written preferences have every stored key plus `dark_mode`; `dark_mode` holds the new flag and every other key keeps its value |
| `Preferences.WrittenDarkModeReadsBack` | Layout.js:132-153 | reading the flag from the written preferences gives back the flag written |
| `Preferences.WithDarkModeLastWins` | Layout.js:148-153 | two successive writes equal one write of the last flag |
| `HeaderLabels.BadgeLabel` | Layout.js:352-354 | no badge exactly at 0; `"9+"` exactly above 9; otherwise one decimal digit whose value is the count |
| `HeaderLabels.Split` | Layout.js:375 | splitting yields at least one piece, and no piece contains a space |
| `HeaderLabels.JoinSplit` | Layout.js:375 | joining the pieces with single spaces gives back the name |
| `HeaderLabels.FirstCharsOfSplit` | Layout.js:375 | the first characters of the pieces are exactly the characters that start a word: non-space, and first or after a space |
| `HeaderLabels.WordStartsAreNonSpace` | Layout.js:375 | every initial is a non-space character of the name |
| `HeaderLabels.Initials` | Layout.js:375 | `"U"` for an empty name; otherwise the word-start characters, each a non-space character of the name |
| `HeaderLabels.InitialsOfTwoWords` | Layout.js:375 | "Al Bo" and "Al  Bo" both give "AB": an empty piece adds nothing |
| `HeaderLabels.InitialsOfBlankNames` | Layout.js:375 | "" gives "U", but " " gives empty initials |
| `Layout.IssueMarkReads` | Layout.js:174-177 | the log grows by exactly the calls of the sequential loop; the result says whether every call returned |
| `Layout.LayoutState.constructor` | Layout.js:85-133 | empty feed, zero counter (consistent), and the dark flag read from the user's stored preferences |
| `Layout.LayoutState.Load` | Layout.js:100-114 | no user: no call and no change; otherwise one fetch; on success the list is the fetched rows and the counter matches them; on failure nothing changes |
| `Layout.LayoutState.MarkRead` | Layout.js:160-170 | one update call; on success the list is marked and the counter decremented (floor 0); on failure nothing changes; a consistent counter stays consistent iff one unread entry carried the id or nothing was unread |
| `Layout.LayoutState.MarkAll` | Layout.js:172-183 | the sequential loop's calls are logged; if all return, one call per unread entry in order, then all read, counter 0 and consistent; otherwise list and counter unchanged |
| `Layout.LayoutState.ToggleDarkMode` | Layout.js:141-158 | the flag flips; with a user, one preference write with only `dark_mode` replaced by the new flag; without a user, no call |

## Left out

- Rendering, the navigation arrays, route highlighting and the inline CSS (Layout.js:49-81, 192-413) are presentation only. This includes the display name `full_name || 'Utilisateur'` and the role label.
- The 30-second polling with `setInterval`/`clearInterval` and React's effect scheduling (Layout.js:116-139) are timers and framework lifecycle. One `Load` step stands for each poll.
- `User.me` (Layout.js:91-98) is I/O. The constructor takes its outcome, and then runs the dark-mode effect of Layout.js:130-133 once.
- The store's own filtering, ordering and limit (the user's notifications, newest first, at most 20) belong to the store. The model logs the arguments the layout passes, and takes the returned rows from the oracle. So it does not establish that the list is sorted or has at most 20 entries.
- `User.logout`, `window.location.reload`, the `isAdmin` test and the DOM `classList` changes (Layout.js:135-138, 144, 185-190) are foreign calls and presentation.
- Error logging with `console.log`/`console.error` is not modelled.
- The handlers read the `notifications` captured at render time and may interleave while awaiting. This concurrency is not modelled: each handler runs as one sequential step on the current state.
- Layout.js:375 indexes UTF-16 code units (`n[0]`). The model works on Dafny characters, so a name starting with a character outside the Basic Multilingual Plane is not modelled faithfully.
- An absent or `null` `full_name` is modelled as the empty string, since both are falsy.
- Preference values are modelled as booleans, integers, strings and `null`. Floating-point numbers, nested objects and arrays are not modelled.
- Components/layout.js is static markup plus the current year from a clock, with no logic to model.
- The contact pipeline, search, filters, aggregation, audit events and column preferences of the wider CRM are not part of this model.
