# Support-chat client: message list, send and upload rules

This project models the local logic of a customer-support chat web client
whose storage, authentication, realtime feed and file storage are all a hosted
backend. What is left once those calls are set aside is modelled here:

- the realtime change handler that both the administrator's screen and the end
  user's screen apply to their message list (`Reconciler`, one copy for the two
  identical handlers), and the component state around it as classes
  (`AdminDashboard.DashboardState`, `UserChat.ChatState`);
- the admin's unseen-message counter, the send guard with JavaScript `trim`,
  the storage key built from `Date.now()` and the file name's last
  `.`-separated piece, and the simulated `uploadProgress` value that climbs
  by 10 up to 90;
- the upload dialog's size limit (50 MiB, inclusive) and seven-entry media-type
  allow-list, with the selected file as state (`FileUploader.UploaderState`);
- the attachment renderer's choice between a loading placeholder, an inline
  image or video, a PDF button and a download button (`FileAttachment`);
- the chat bubble's "own message", text, attachment and seen-tick decisions
  (`MessageBubble`).

The JavaScript library behaviour the code relies on is written out in
`JsText`: the exact white-space set of `String.prototype.trim`, `split` with a
one-character separator (with `join` as its proved inverse), and the decimal
rendering of an integer in a template literal (with its proved parse-back).
JavaScript truthiness of `string | null` (null and `""` are both false) is
`ChatTypes.IsTruthy`; it is what `!selectedUserId`, `!signedUrl`,
`message.content && …` and `message.file_path && …` test.

Backend results are parameters: `insertSucceeds`, `uploadSucceeds`, the number
of progress-interval firings `ticks` before the upload resolves, and the
timestamp `now` standing for `Date.now()`. The rows the screens ask the store
to insert and the uploads they request are returned as values
(`NewMessage`, `StorageUpload`); the callback `onUpload` is modelled by the
list of calls `HandleUpload` makes.

Behaviour of the code worth knowing before reading the lemmas:

- An INSERT is not de-duplicated: the handler appends the row whatever its id,
  so the same INSERT twice leaves two entries
  (`Reconciler.RepeatedInsertIsKept`, `Reconciler.InsertAddsAnOccurrence`).
- An UPDATE only maps over the list: an UPDATE for an id not yet in the list
  is not added and is lost
  (`Reconciler.UpdateBeforeInsertIsDropped`, `Reconciler.UpdateOfAbsentIdIsNoOp`).
- Switching conversations on the admin screen only changes `selectedUserId`:
  the old list stays until the new snapshot arrives
  (`DashboardState.SelectUser` leaves `messages` alone).
- End-user file uploads (UserChat.tsx) do not go through the upload dialog's
  size and type checks; only the admin screen uses the dialog.
- `uploadProgress` is state only: the admin screen passes it to the upload
  dialog, which does not declare or render it, so nothing on screen shows it.

## Model

| member | source | states |
|---|---|---|
| `JsText.Trim` | src/components/chat/AdminDashboard.tsx:131 | `content.trim()` is empty exactly when the input is white space only; a non-empty result starts and ends with a non-space |
| `JsText.TrimChars` | src/components/chat/AdminDashboard.tsx:131 | trimming a set of characters from both ends leaves nothing exactly when every character is in the set, and otherwise a text that starts and ends outside it (`Trim` is this with the white-space set) |
| `JsText.TrimIsTrimmedSlice` | src/components/chat/AdminDashboard.tsx:137 | for any character set, the white-space set of `Trim` included, the trimmed text is the slice of the input between its margins of characters from the set |
| `JsText.TrimmedSliceIsUnique` | src/components/chat/UserChat.tsx:103 | any slice whose margins are all in the set and whose ends are not is the trimmed text: `Trim` is fully determined by that description |
| `JsText.Split` | src/components/chat/AdminDashboard.tsx:155 | `split(".")` always yields at least one piece, so `pop()` always has a piece to return |
| `JsText.JoinSplit` | src/components/chat/AdminDashboard.tsx:155 | joining the pieces of a split with the separator gives back the original name |
| `JsText.SplitPiecesHaveNoSeparator` | src/components/chat/AdminDashboard.tsx:155 | no piece of a split contains the separator |
| `JsText.SplitWithoutSeparator` | src/components/chat/UserChat.tsx:121 | a name without `.` splits into itself alone |
| `JsText.SplitAtSeparator` | src/components/chat/UserChat.tsx:121 | splitting `a.b` yields the pieces of `a` followed by the pieces of `b` |
| `JsText.Decimal` | src/components/chat/AdminDashboard.tsx:156 | the timestamp in the key is a non-empty run of decimal digits without leading zero |
| `JsText.DecimalRoundTrip` | src/components/chat/UserChat.tsx:122 | reading the timestamp digits back yields the timestamp |
| `FileNames.FileExtension` | src/components/chat/AdminDashboard.tsx:155 | the extension contains no `.` and is a suffix of the file name |
| `FileNames.ExtensionWithoutDot` | src/components/chat/UserChat.tsx:121 | a name without `.` is its own extension |
| `FileNames.ExtensionAfterLastDot` | src/components/chat/AdminDashboard.tsx:155 | for a name with a `.`, the extension is everything after the last `.` |
| `FileNames.ExtensionOfDottedName` | src/components/chat/UserChat.tsx:122 | appending `.ext` to any prefix makes `ext` the extension |
| `Reconciler.Apply` | src/components/chat/AdminDashboard.tsx:111-121 | one event keeps the position and id of every entry already in the list, grows it by one entry only for an INSERT, and puts the inserted row last |
| `Reconciler.ApplyAll` | src/components/chat/UserChat.tsx:72-82 | a run of events grows the list by one entry per INSERT and keeps the position and id of every entry it started with |
| `Reconciler.ReplaceById` | src/components/chat/AdminDashboard.tsx:116-118 | the UPDATE map keeps the list length |
| `Reconciler.InsertAppends` | src/components/chat/AdminDashboard.tsx:112-113 | INSERT makes the list one longer, keeps every earlier entry and puts the row last |
| `Reconciler.InsertAddsAnOccurrence` | src/components/chat/UserChat.tsx:73-74 | INSERT does not de-duplicate: the row's id occurs once more than before, also when already present |
| `Reconciler.UpdateKeepsShape` | src/components/chat/AdminDashboard.tsx:114-119 | UPDATE keeps the length and the id at every position |
| `Reconciler.UpdateReplacesMatches` | src/components/chat/AdminDashboard.tsx:116-118 | after UPDATE every entry with the row's id is the row and every other entry is unchanged |
| `Reconciler.UpdateOfAbsentIdIsNoOp` | src/components/chat/UserChat.tsx:75-80 | UPDATE for an id not in the list leaves the list identical |
| `Reconciler.UpdateIsIdempotent` | src/components/chat/UserChat.tsx:76-80 | applying the same UPDATE twice equals applying it once |
| `Reconciler.OtherEventIsNoOp` | src/components/chat/AdminDashboard.tsx:112-120 | an event that is neither INSERT nor UPDATE leaves the list unchanged |
| `Reconciler.IdsAfterEvents` | src/components/chat/UserChat.tsx:72-82 | after any run of events the ids are the starting ids, position for position, followed by the inserted rows' ids in arrival order |
| `Reconciler.RepeatedInsertIsKept` | src/components/chat/UserChat.tsx:73-74 | the same INSERT delivered twice leaves two entries |
| `Reconciler.UpdateBeforeInsertIsDropped` | src/components/chat/AdminDashboard.tsx:114-119 | an UPDATE arriving before its row's INSERT is lost, not inserted |
| `AdminDashboard.UnseenFromUser` | src/components/chat/AdminDashboard.tsx:218 | a message is in the filtered list exactly when it is an unseen message sent by the user in the list, and the filtered list has one entry per position of the list holding one |
| `AdminDashboard.UnseenCount` | src/components/chat/AdminDashboard.tsx:218 | `unseenCount` is the number of positions of the list holding an unseen message sent by the user |
| `AdminDashboard.UnseenCountAppend` | src/components/chat/AdminDashboard.tsx:218 | the counter of a concatenation is the sum of the counters |
| `AdminDashboard.UnseenCountPositive` | src/components/chat/AdminDashboard.tsx:289 | the counter (and so the "Mark as Seen" button) is positive exactly when some user message is unseen |
| `AdminDashboard.UnseenCountAfterInsert` | src/components/chat/AdminDashboard.tsx:112-113 | an INSERT raises the counter by one exactly when the new row is an unseen user message |
| `AdminDashboard.SendRequest` | src/components/chat/AdminDashboard.tsx:131-138 | no insert when the input is blank or no user is selected; otherwise an admin message to the selected user with the trimmed, non-empty text |
| `AdminDashboard.StorageKey` | src/components/chat/AdminDashboard.tsx:155-156 | the key is exactly `admin/<selectedUserId>/`, then decimal digits that read back as the timestamp, then a `.`, then the file name's extension, which is therefore also the key's extension |
| `AdminDashboard.ProgressTick` | src/components/chat/AdminDashboard.tsx:160-163 | one firing raises `uploadProgress` by at most 10, leaves it unchanged exactly when it is at 90 or above, and keeps a multiple of 10 between 0 and 90 in that range |
| `AdminDashboard.ProgressFromZero` | src/components/chat/AdminDashboard.tsx:159-164 | from 0, after k firings `uploadProgress` is min(10k, 90): a multiple of 10 never above 90 |
| `AdminDashboard.ProgressStaysAtCap` | src/components/chat/AdminDashboard.tsx:161 | once `uploadProgress` is at 90 or above, further firings leave it unchanged |
| `AdminDashboard.DashboardState.constructor` | src/components/chat/AdminDashboard.tsx:31-37 | initial state: nobody selected, empty list and input, not uploading, progress 0, dialog closed |
| `AdminDashboard.DashboardState.UnseenCounter` | src/components/chat/AdminDashboard.tsx:218 | the counter over the current list is at most its length |
| `AdminDashboard.DashboardState.SelectUser` | src/components/chat/AdminDashboard.tsx:251 | selecting a profile sets `selectedUserId` and nothing else |
| `AdminDashboard.DashboardState.SetContent` | src/components/chat/AdminDashboard.tsx:347 | typing replaces the input text |
| `AdminDashboard.DashboardState.ApplyEvent` | src/components/chat/AdminDashboard.tsx:111-121 | the list becomes the reconciler's result for the event; nothing else changes |
| `AdminDashboard.DashboardState.HandleSend` | src/components/chat/AdminDashboard.tsx:130-146 | issues exactly the insert `SendRequest` gives and clears the input only after a successful insert |
| `AdminDashboard.DashboardState.OpenFileUpload` | src/components/chat/AdminDashboard.tsx:340 | the paperclip opens the upload dialog |
| `AdminDashboard.DashboardState.CancelFileUpload` | src/components/chat/AdminDashboard.tsx:325 | Cancel closes the dialog unless an upload is running |
| `AdminDashboard.DashboardState.AdvanceProgress` | src/components/chat/AdminDashboard.tsx:160-163 | one interval firing applies the progress updater |
| `AdminDashboard.DashboardState.HandleFileUpload` | src/components/chat/AdminDashboard.tsx:148-193 | nothing without a selected user; otherwise uploads under `StorageKey`, leaves `uploadProgress` at min(10·ticks, 90) while pending, inserts a file message only after a successful upload, ends with progress 0 and not uploading, and closes the dialog only on full success |
| `UserChat.SendRequest` | src/components/chat/UserChat.tsx:97-104 | no insert for blank input; otherwise a user message in the user's own conversation with the trimmed, non-empty text |
| `UserChat.StorageKey` | src/components/chat/UserChat.tsx:121-122 | the key is exactly `<userId>/`, then decimal digits that read back as the timestamp, then a `.`, then the file name's extension, which is therefore also the key's extension |
| `UserChat.ChatState.constructor` | src/components/chat/UserChat.tsx:22-23 | initial state: empty list and input |
| `UserChat.ChatState.SetContent` | src/components/chat/UserChat.tsx:210 | typing replaces the input text |
| `UserChat.ChatState.ApplyEvent` | src/components/chat/UserChat.tsx:72-82 | the list becomes the reconciler's result for the event; nothing else changes |
| `UserChat.ChatState.HandleSend` | src/components/chat/UserChat.tsx:96-112 | issues exactly the insert `SendRequest` gives and clears the input only after a successful insert |
| `UserChat.ChatState.HandleFileSelect` | src/components/chat/UserChat.tsx:114-148 | nothing without a file; otherwise uploads under `StorageKey` and, only if that succeeds, inserts a user file message with that key, the file's type and no text |
| `FileUploader.Check` | src/components/chat/FileUploader.tsx:31-39 | too large exactly when size > 50 MiB; type not allowed exactly when the size passes and the type is not listed; accepted exactly when both pass |
| `FileUploader.ExactLimitPasses` | src/components/chat/FileUploader.tsx:6 | the limit is 52428800 bytes and inclusive: that size passes, one byte more does not |
| `FileUploader.AcceptedFilesRenderInline` | src/components/chat/FileUploader.tsx:7-15 | every allowed type renders as image, video or PDF button once a URL is known, never as the download button |
| `FileUploader.UploaderState.constructor` | src/components/chat/FileUploader.tsx:24 | nothing is selected at first |
| `FileUploader.UploaderState.HandleFileSelect` | src/components/chat/FileUploader.tsx:27-42 | no file or a rejected file leaves the selection unchanged and reports `Check`'s reason; an accepted file becomes the selection |
| `FileUploader.UploaderState.HandleUpload` | src/components/chat/FileUploader.tsx:44-48 | `onUpload` is called exactly once, with the selected file, when one is selected, and never otherwise |
| `FileAttachment.MediaKindsAreExclusive` | src/components/chat/FileAttachment.tsx:33-35 | no type is both image and video, and `application/pdf` is neither |
| `FileAttachment.Render` | src/components/chat/FileAttachment.tsx:29-81 | the placeholder is shown exactly while the signed URL is null or empty, and every other view links to the signed URL |
| `FileAttachment.RenderCases` | src/components/chat/FileAttachment.tsx:29-81 | loading iff no (or an empty) URL; image iff `image/` prefix; video iff `video/` prefix; PDF iff exactly `application/pdf`; download for every other type including null |
| `MessageBubble.IsOwnMessage` | src/components/chat/MessageBubble.tsx:22 | in the admin view own iff sent by the admin, otherwise own iff sent by the user |
| `MessageBubble.OwnInExactlyOneView` | src/components/chat/MessageBubble.tsx:7 | every message is own in exactly one of the two views |
| `MessageBubble.DefaultIsUserView` | src/components/chat/MessageBubble.tsx:17 | an omitted `isAdmin` gives the user view |
| `MessageBubble.ViewerIsAdmin` | src/components/chat/MessageBubble.tsx:17 | the viewer is the admin exactly when `isAdmin` is passed as `true`; omitted or `false` is the user |
| `MessageBubble.ShowsContent` | src/components/chat/MessageBubble.tsx:33 | the text paragraph shows exactly when the content is present and non-empty |
| `MessageBubble.ShowsAttachment` | src/components/chat/MessageBubble.tsx:37 | the attachment shows exactly when the file path is present and non-empty |
| `MessageBubble.ShowsSeenTick` | src/components/chat/MessageBubble.tsx:46 | the tick shows exactly on a seen message sent by the viewer's own role |
| `AdminDashboard.BubblesAgreeWithUnseenCounter` | src/components/chat/MessageBubble.tsx:46 | a message the admin counter counts shows on the admin's left without tick; on the user's screen a user message has the tick iff the counter no longer counts it |
| `UserChat.SentMessagesAreShown` | src/components/chat/MessageBubble.tsx:33-37 | a sent text message shows its text; a file message shows its attachment and no text |

## Left out

- Backend calls (`select`, `insert`, `update`, storage `upload`, `createSignedUrl` with its one-hour expiry): foreign network calls; their outcomes are parameters and their requests are returned values.
- The initial snapshot load (`setMessages(data || [])`) and its error toast: it is the result of a `select`, not local logic.
- Realtime channel subscription, the server-side `user_id` filter and `removeChannel`: transport plumbing; only the payload updater is modelled.
- `markAsSeen`: a server-side bulk update whose local effect reaches the list only through UPDATE events.
- The profile list, its refetch on every profile change and the `selectedProfile` lookup: a refetch without local merge logic.
- The presence heartbeat (`setInterval` every 30 s) and the progress interval's 200 ms timing: timers; the number of firings is a parameter.
- `Date.now()`: a clock; passed in as `now`, a non-negative integer rendered in decimal (valid for JavaScript numbers below 10^21).
- Interleaving across `await`: each handler runs to completion in the model, so input typed while a send is in flight (and then cleared by `setContent("")`) is not represented.
- The pages outside the chat components (session gate, sign-in form, landing page): authentication plumbing and static markup.
- JSX, CSS, icons, toast notifications (a rejection is returned instead of shown), the `disabled` attributes of the send and upload buttons, the `accept` attribute of file inputs, `window.open`, auto-scrolling and the file-input reset.
- Date formatting with date-fns and the megabyte display of the selected file: formatting and floating point.
- `payload.new as Message`: rows are assumed to be well-formed messages whose `sender` is one of the two roles.
