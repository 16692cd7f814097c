# Constituent management: a verified model of the store and view logic

This project models the logic inside a single-user constituent-relationship-management web interface, in Dafny. The interface tracks constituents (voters), policy issues, the links between them, and inbound communications. Almost all of its source is rendering. What is modelled here is the part that computes something:

- **The store** (`AppContext`). Three collections start empty: constituents, issues and constituent–issue links. They change only through three append operations. Each operation is a pure transition from one `AppState` to the next.
- **The inbox derivations** (`Inbox`):
  - finding a message's sender by voter id, with an "Unknown Constituent" fallback;
  - the one-line message preview, cut to 100 characters plus "...";
  - the case-insensitive table from issue status to badge colour;
  - the badge for each linked issue, with an "Unknown Issue" fallback;
  - the screen's selection and reply-draft state.
- **The issues table's status colours** (`Issues`). This is a second, different status-to-colour switch. `StatusTables` proves how the two switches relate.
- **The add-constituent form** (`ConstituentForm`):
  - edits to named fields;
  - building the new record, with a voter id of `"V"` plus the submission timestamp;
  - handing that record to the store;
  - resetting the form afterwards.

Helper modules:
- `Optional` holds the `Option` type, which stands for JavaScript's `undefined`.
- `Seqs` holds `find`'s first-match search.
- `Text` covers `toLowerCase`, `split` and decimal rendering.
- `Types` holds the records of `src/types/index.ts`.

Time is not read from a clock. The instant of a submission is a parameter `now`, in milliseconds.

## Model

| member | source | states |
|---|---|---|
| AppContext.AddConstituent | src/contexts/AppContext.tsx:20-22 | The collection grows by exactly one and the new constituent is last. Every earlier constituent keeps its value and position. Issues and links are unchanged. There is no precondition, so no duplicate check. |
| AppContext.AddIssue | src/contexts/AppContext.tsx:24-26 | The issue collection grows by exactly one and the new issue is last. Earlier issues are kept in order. Constituents and links are unchanged. |
| AppContext.AddConstituentIssue | src/contexts/AppContext.tsx:28-30 | The link collection grows by exactly one and the new link is last. Constituents and issues are unchanged. Nothing checks that the referenced ids exist. |
| AppContext.RunHoldsExactlyTheAdded | src/contexts/AppContext.tsx:16-30 | Start from the mounted provider and apply any sequence of additions. Each collection then equals exactly the items added to it, in the order added. With no additions, all three are empty. |
| AppContext.RunOnlyAppends | src/contexts/AppContext.tsx:20-30 | Whatever later additions happen, every element already stored keeps its value and its position in its collection. |
| AppContext.AddConstituentKeepsDuplicates | src/contexts/AppContext.tsx:20-22 | Adding a constituent whose voter id is already present still appends it. That id then occurs one more time, so at least twice. |
| AppContext.AddsToDifferentCollectionsCommute | src/contexts/AppContext.tsx:20-30 | Additions to two different collections give the same state in either order. |
| Seqs.Find | src/components/Inbox.tsx:30 | `find` returns nothing exactly when no element matches. Otherwise it returns an element that matches and has no matching element before it. |
| Inbox.GetConstituent | src/components/Inbox.tsx:29-31 | There is no result exactly when no constituent has the voter id. Otherwise the result is the first constituent that has it. |
| Inbox.SenderLabel | src/components/Inbox.tsx:105-118 | For the first constituent with the message's sender id, the list label is its first name, a space, then its last name. When no constituent has that id, the label is exactly "Unknown Constituent". |
| Inbox.DetailSenderName | src/components/Inbox.tsx:134-137 | The header over an open message equals the list label when the sender exists. For an unknown sender it is a lone space, not "Unknown Constituent". |
| Text.Split | src/components/Inbox.tsx:41 | `split` always yields at least one part, and no part contains the separator. The first part is the prefix of the text up to the first separator. There is exactly one part when the text has no separator. |
| Text.JoinSplit | src/components/Inbox.tsx:41 | Joining the parts of a split with the separator gives back the original text. |
| Text.FirstPartIsPrefixBefore | src/components/Inbox.tsx:41 | The first part of a split is the unique prefix that has no separator and is followed either by a separator or by the end of the text. |
| Inbox.PreviewText | src/components/Inbox.tsx:40-43 | The preview never contains a newline and is at most 103 characters long. |
| Inbox.PreviewTextOfFirstLine | src/components/Inbox.tsx:40-43 | Let n be the position of the first newline, or the message length if there is none. If n is at most 100, the preview is the message's first n characters, unchanged. Otherwise it is the first 100 characters followed by "...", exactly 103 characters. |
| Text.ToLower | src/components/Inbox.tsx:51 | Lower-casing keeps the length and lower-cases each character in place. |
| Text.ToLowerFixesExactlyLower | src/components/Inbox.tsx:51 | Lower-casing leaves a string unchanged exactly when it has no upper-case letter. |
| Text.ToLowerIdempotent | src/components/Inbox.tsx:51 | Lower-casing twice is the same as lower-casing once. |
| Inbox.StatusColor | src/components/Inbox.tsx:50-90 | A colour other than gray means the lower-cased status is the one phase that `PhaseOf` assigns to that colour. The colour is gray exactly when no phase in that table matches the lower-cased status. |
| Inbox.StatusColorIgnoresCase | src/components/Inbox.tsx:50-51 | Two statuses that lower-case to the same string get the same colour. In particular a status and its lower-cased form get the same colour. |
| Inbox.PhaseColorInverse | src/components/Inbox.tsx:50-90 | Each colour other than gray is produced by exactly one lower-cased status, the one `PhaseOf` names. The statement holds in both directions. |
| Inbox.PhaseColorGray | src/components/Inbox.tsx:50-90 | A status is gray exactly when no other colour claims it. This covers "new", "resolved" and every status the switch does not list. |
| Inbox.InProgressIsGreen | src/components/Inbox.tsx:77-78 | "In Progress" and "in progress" are both green. |
| Inbox.BlockedIsRed | src/components/Inbox.tsx:79-80 | "blocked" is red. |
| Inbox.ReferredIsYellow | src/components/Inbox.tsx:85-86 | "Referred" is yellow. |
| Inbox.NewAndResolvedAreGray | src/components/Inbox.tsx:53-84 | "new" and "resolved" are both gray. |
| Inbox.EmptyStatusIsGray | src/components/Inbox.tsx:87-88 | The empty status falls to the default case, which is gray. |
| Inbox.FindIssue | src/components/Inbox.tsx:159 | There is no result exactly when no issue has the linked id. Otherwise the result is the first issue with that id. |
| Inbox.LinkedIssueBadge | src/components/Inbox.tsx:158-163 | A link to a missing issue shows "Unknown Issue" in gray. A link to an existing issue uses the first matching issue's status colour. Its text is the issue's title, or "Unknown Issue" when the title is empty. |
| Inbox.SelectMessage | src/components/Inbox.tsx:45-48 | Selecting a message opens it and sets the reply being edited to exactly that message's stored draft. |
| Inbox.EditReply | src/components/Inbox.tsx:175 | Typing in the reply editor replaces the edited text and leaves the open message unchanged. |
| Inbox.IsHighlighted | src/components/Inbox.tsx:111 | No row is highlighted while no message is open. The open message's own row is always highlighted. Rows are matched by id, so `SelectMessageResetsView` states exactly which rows are highlighted. |
| Inbox.SelectMessageResetsView | src/components/Inbox.tsx:45-48 | The view after a selection does not depend on the view before it. Re-opening a message after editing its reply discards the edit and restores the stored draft. A list row is highlighted exactly when its communication id equals the open message's id. |
| Issues.StatusColor | src/components/Issues.tsx:9-20 | The issues table's colour is always green, yellow, blue or gray. |
| Issues.StatusColorIgnoresCase | src/components/Issues.tsx:9-10 | Two statuses that lower-case to the same string get the same colour. |
| Issues.PhaseColorInverse | src/components/Issues.tsx:11-16 | Green, yellow and blue are produced by exactly "active", "pending" and "resolved" respectively. The statement holds in both directions. |
| Issues.PhaseColorGray | src/components/Issues.tsx:17-18 | A lower-cased status is gray exactly when it is none of "active", "pending" and "resolved". |
| Issues.ActiveIsGreen | src/components/Issues.tsx:11-12 | "Active" is green. |
| Issues.StatusColorExamples | src/components/Issues.tsx:13-16 | "pending" is yellow and "resolved" is blue. |
| Issues.InProgressIsGray | src/components/Issues.tsx:17-18 | "in progress" falls to the default case, which is gray. |
| StatusTables.TablesNeverShareAColour | src/components/Issues.tsx:9-20 | For every status, the inbox colour or the issues-table colour is gray. The two screens never give the same status the same non-gray colour. |
| StatusTables.TablesDisagree | src/components/Issues.tsx:15-18 | "resolved" is blue on the issues table but gray in the inbox. "in progress" is green in the inbox but gray on the issues table. |
| ConstituentForm.HandleChange | src/components/ConstituentForm.tsx:34-40 | The named property holds the new value. Every other property keeps its value. The set of properties gains the name and nothing else. |
| ConstituentForm.EditFormHolds | src/components/ConstituentForm.tsx:20-40 | Start from the initial form and apply any edits. The form then still holds all eleven initial properties, plus exactly those some edit named. Each property holds the value of the last edit that named it, or is empty if no edit did. |
| Text.NatToDecimal | src/components/ConstituentForm.tsx:46 | A timestamp renders as a non-empty string of decimal digits with no leading zero, and that string denotes the timestamp. |
| Text.NatToDecimalInjective | src/components/ConstituentForm.tsx:46 | Two numbers render the same exactly when they are equal. |
| ConstituentForm.VoterId | src/components/ConstituentForm.tsx:46 | The generated id is "V" followed by the decimal digits of the timestamp, with no leading zero (so it is "V0" only for timestamp 0). |
| ConstituentForm.VoterIdInjective | src/components/ConstituentForm.tsx:46 | Distinct timestamps give distinct voter ids, and equal timestamps give the same id. |
| ConstituentForm.BuildConstituent | src/components/ConstituentForm.tsx:48-53 | The record's voter id is the generated one. Both its birth date and its registration date are the submission instant. Every form property is copied unchanged into the record field of the same name. |
| ConstituentForm.BuildIgnoresOverriddenFields | src/components/ConstituentForm.tsx:48-53 | A `voter_id`, `date_of_birth` or `registration_date` entered in the form does not change the built record. The fields spread after the form override it. |
| ConstituentForm.HandleSubmit | src/components/ConstituentForm.tsx:42-79 | When a store is present, exactly one constituent, the one built from the form, is appended, and nothing else in the store changes. When there is no store, nothing is added. In both cases the form returns to its initial all-empty state. |
| ConstituentForm.SameInstantSubmissionsCollide | src/components/ConstituentForm.tsx:46-55 | Two submissions in the same millisecond are both stored under one voter id, which occurs two more times than before. Nothing guards against this. |

## Left out

- The markup is not modelled: JSX layout, Chakra UI widgets, modals, and the success toast (src/components/ConstituentForm.tsx:57-63). Apart from the form's submission gate described next, these only affect presentation.
- ConstituentForm.HandleSubmit: the browser's validation that gates submission is not modelled. Each `<FormControl isRequired>` (src/components/ConstituentForm.tsx:84-171) marks its input as required, and the e-mail input has `type="email"` (line 106). So the browser does not fire `onSubmit` while any of the nine required fields is empty or the e-mail address is malformed. The model accepts every form holding the eleven initial properties, and so does ConstituentForm.SameInstantSubmissionsCollide. The browser's e-mail syntax rules are not part of this model.
- `e.preventDefault()` is not modelled. It is a DOM side effect.
- src/App.tsx, src/components/LeftNav.tsx and src/components/Header.tsx are not part of this model. They contain routing and shell markup only.
- The Dashboard counts and the Constituents table rendering are not modelled. They are plain `.length` reads and row mappings.
- Date formatting (`formatDate`, `toLocaleDateString`) is not modelled, because it depends on the locale. Dates are opaque millisecond timestamps.
- `Date.now()` and `new Date()` are not read. The instant of submission is the parameter `now`.
- ConstituentForm.HandleSubmit: the source reads the clock three times, once for the id (line 46) and once for each date (lines 51-52). The model uses a single `now` for all three, so it cannot show the dates differing from the id's timestamp by a millisecond.
- ConstituentForm.BuildConstituent: requires the form to hold its eleven initial properties, which is what the `as Constituent` cast assumes. `EditFormHolds` proves that every reachable form satisfies this. Form properties that are not fields of a constituent are dropped, although the JavaScript object would carry them.
- ConstituentForm.VoterId: `Date.now()` is taken to be a non-negative integer. JavaScript renders such integers in plain decimal below 10^21.
- Text.ToLower: only the ASCII letters A-Z are lower-cased, whereas `toLowerCase` uses full Unicode case mapping. Strings are sequences of characters, not UTF-16 code units.
- Inbox.StatusColorIgnoresCase: case-insensitivity is proved for ASCII letters only, because of the Text.ToLower simplification above.
- Issues.StatusColorIgnoresCase: case-insensitivity is proved for ASCII letters only, for the same reason.
- Inbox.PreviewText: lengths and the 100-character cut are counted in characters, whereas `length` and `substring` count UTF-16 code units.
- The provider in src/contexts/AppContext.tsx supplies no `communications` collection, so `context.communications?.map` (src/components/Inbox.tsx:104) renders no messages under it. The inbox functions here take communications as a parameter instead.
- The "Send Reply" button (src/components/Inbox.tsx:179-181) has no handler. The edited reply never reaches any stored communication, and the model has no operation for it.
- The store operations build on the state captured when the provider last rendered: `[...constituents, c]` rather than a functional update. Two additions in one event would lose the first. The model applies each addition to the latest state, which matches one addition per event, as every caller shown here does.
- Operations declared in src/types/index.ts:49-66 but not implemented by the provider are not modelled: update, delete, reset and the communication operations. The same goes for persistence, seeding, search filtering and column sorting, which nothing shown implements.
