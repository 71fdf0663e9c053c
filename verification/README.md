# Yahooo chat client — a Dafny model of its core

Yahooo is a React chat client backed by Supabase. This project models the client-side logic that decides what the user sees and what is sent to the backend:

- the message window of a conversation (`useMessages`): pagination, realtime appends and sending;
- the conversation directory (`useConversations`): formatting, filtering and ordering the sidebar list, plus the guarded group mutators;
- the chat screen's state (`ChatLayout`): the active conversation, the pending placeholders and the header;
- the create-group dialog (duplicate detection, "warn, then create anyway");
- the add-member dialog;
- the group information panel (initials, admin gating, remove/leave/delete handlers);
- the message composer;
- the error-message mapping;
- the reply preview;
- the avatar;
- the sign-up form.

Every database query, RPC and auth call becomes an input to the model: a `Reply` value, either `Data(value)` or `Error(message)`. The model is the pure state transition the client makes once that answer arrives.

Modules:

- `Common`: ids, `Option` and `Reply`.
- `Text`: JavaScript white space, `trim`, `split(/\s+/)` support, ASCII case mapping, `includes`, and decimal rendering.
- `Seqs`: `filter` and `reverse`, with their lemmas.
- `Timeline`: `useMessages`.
- `Directory`: `useConversations`.
- `ChatLayout`.
- `Selection`: the `toggleUser`/`isSelected` code shared by both dialogs.
- `CreateGroupModal`.
- `AddMemberModal`.
- `GroupInfoPanel`.
- `MessageInput`.
- `ErrorHandler`.
- `ReplyPreview`.
- `Avatar`.
- `SignupPage`.

The model follows the code where its behaviour is easy to mistake:

- A realtime insert is appended without any check for an id already in the window.
- A page answer is applied whatever conversation is active when it arrives.
- `sendMessage` takes the content only. The reply id that `ChatLayout` passes is dropped.
- Starting a chat or creating a group sets its placeholder before the backend call. The clearing effect then runs during the wait, while the previous conversation is still active. So when that conversation is listed, the new placeholder is gone before the new id becomes active, and the header shows "Chat" and "offline" until the directory lists the new conversation.
- Otherwise the placeholder stays until the active id appears in the directory, and a failed group creation leaves it in place.
- A group name made only of white space gets the initials `""`, not `"G"`.
- The chat screen catches and only logs a failed message insert, leave or delete. So the composer empties its field and the group panel closes even when the backend refused.

## Model

| member | source | states |
|---|---|---|
| Timeline.Fetch | src/hooks/useMessages.js:15-60 | No conversation or user means no change. A page with no cursor replaces the window and a page with a cursor goes in front of it, in both cases reversed to oldest first. `hasMore` is true exactly when the page held 50 rows. An error keeps the messages and records its message. Loading ends on every path. |
| Timeline.ReversedPageAscends | src/hooks/useMessages.js:34-45 | A page the database returns newest first is shown in ascending creation time. |
| Timeline.InitialFetchShowsPageOldestFirst | src/hooks/useMessages.js:45-50 | The initial fetch shows exactly the page, reversed and ascending. |
| Timeline.LoadMoreCursor | src/hooks/useMessages.js:63-67 | There is a cursor exactly when the window is non-empty and `hasMore` holds. The cursor is the first message's time, which is the oldest when the window ascends. |
| Timeline.LoadMore | src/hooks/useMessages.js:63-68 | With no cursor nothing changes. Otherwise the previously loaded messages stay, unchanged, at the end of the window. |
| Timeline.LoadMoreKeepsAscending | src/hooks/useMessages.js:37-48 | A page that answers the cursor query (at most 50 rows, newest first, all older than the cursor) keeps an ascending window ascending. |
| Timeline.PaginationKeepsAscending | src/hooks/useMessages.js:63-68 | Any run of honest older-page loads keeps the window ascending. |
| Timeline.PaginationKeepsLoaded | src/hooks/useMessages.js:47-48 | Whatever pages arrive, the messages loaded before survive as a suffix of the window. |
| Timeline.EndsWithTransitive | src/hooks/useMessages.js:48 | Keeping a suffix composes across successive prepends. |
| Timeline.OnRealtimeInsert | src/hooks/useMessages.js:106-110 | A row that was found is appended at the end and everything else is kept. A missing row changes nothing. |
| Timeline.RealtimeDuplicatesRedelivery | src/hooks/useMessages.js:107-108 | Delivering the same insert twice adds two copies: there is no deduplication by id. |
| Timeline.RealtimeKeepsAscending | src/hooks/useMessages.js:106-108 | An insert no older than the newest loaded message keeps the window ascending. |
| Timeline.OnConversationChange | src/hooks/useMessages.js:71-77 | With no conversation the window is emptied. Otherwise the old messages remain and a fetch starts when a user is signed in. |
| Timeline.SwitchShowsOnlyNewPage | src/hooks/useMessages.js:71-77 | Switching to a conversation and receiving its first page shows that page alone, oldest first, and loading has ended. |
| Timeline.NoConversationStaysEmpty | src/hooks/useMessages.js:15-75 | With no conversation the window is empty, and no answer can refill it. |
| Timeline.SendMessage | src/hooks/useMessages.js:121-135 | The insert is skipped exactly when the conversation or user is missing or the content is blank. The inserted row carries the conversation, the user and the non-empty trimmed content. The insert fails exactly when the backend answers with an error. |
| Directory.LatestIndex | src/hooks/useConversations.js:69-71 | Picks a message with the greatest creation time, and the earliest such one, as the stable sort puts it first. |
| Directory.FirstOther | src/hooks/useConversations.js:90-92 | The first participant who is not the viewer, or none. |
| Directory.Format | src/hooks/useConversations.js:68-102 | A group keeps its name, or 'Unnamed Group' when the name is missing or empty. Each participant keeps a non-empty stored role (such as 'admin') and otherwise gets 'member'. A direct chat's other user is the first participant who is not the viewer, or none when every participant is the viewer. The last message and its time come from the latest message, and are absent exactly when there are no messages. |
| Directory.Insert | src/hooks/useConversations.js:108-112 | Inserting into a newest-first list keeps it newest first and adds exactly one entry. |
| Directory.SortByRecency | src/hooks/useConversations.js:108-112 | The result is ordered by `lastMessageTime`, or `updatedAt` when there is none, newest first, and is a permutation of the input. |
| Directory.Listing | src/hooks/useConversations.js:106-112 | The list is newest first, is a permutation of the visible formatted entries, and contains an entry exactly when it is visible and formatted from some row. |
| Directory.ListingKeepsExactlyVisible | src/hooks/useConversations.js:107 | A row's entry is listed exactly when it is a group or its latest message has non-empty content. |
| Directory.Refresh | src/hooks/useConversations.js:13-120 | Without a user nothing runs. No memberships gives an empty list. Either query's error keeps the old list and records the message. Otherwise the list is the listing. Loading and the initial-load flag end. |
| Directory.ExampleOrdering | src/hooks/useConversations.js:104-112 | The three-entry ordering example: the direct chat with the newest message comes first, and the empty group sorts by its update time. |
| Directory.Dedup | src/hooks/useConversations.js:188 | `[...new Set(xs)]`: no repeats, each element of the input exactly once, and the first element kept first. |
| Directory.DedupKeepsDistinct | src/hooks/useConversations.js:188 | A list without repeats passes through the set unchanged. |
| Directory.WithCreator | src/hooks/useConversations.js:187-188 | The creator comes first, followed by each invitee once, with no repeats. |
| Directory.WithCreatorKeepsDistinct | src/hooks/useConversations.js:187-188 | With distinct invitees who do not include the creator, the list is the creator followed by the invitees in order. |
| Directory.TrioParticipants | src/hooks/useConversations.js:188 | The two-invitee example gives the creator and the two invitees. |
| Directory.Mutate | src/hooks/useConversations.js:214-230 | Without a user the result is 'Not authenticated' and no call. Otherwise the RPC is called, its error is rethrown, and a refetch happens exactly on success. |
| Directory.CreateGroupConversation | src/hooks/useConversations.js:184-204 | Without a user it throws 'Not authenticated' and calls nothing. Otherwise the RPC receives the name and the creator followed by the deduplicated invitees. An error answer is rethrown with the backend's message. The new id is returned, and only then is the directory refetched. |
| Directory.LeaveGroup | src/hooks/useConversations.js:214-230 | Without a user it throws 'Not authenticated' and calls nothing. Otherwise it calls `leave_group` for the conversation. An error answer is rethrown with the backend's message. A data answer is returned, and only then is the directory refetched. |
| Directory.AddMembersToGroup | src/hooks/useConversations.js:233-250 | Without a user it throws 'Not authenticated' and calls nothing. Otherwise it calls `add_group_members` with the ids. An error answer is rethrown with the backend's message. A data answer is returned, and only then is the directory refetched. |
| Directory.RemoveMemberFromGroup | src/hooks/useConversations.js:253-270 | Without a user it throws 'Not authenticated' and calls nothing. Otherwise it calls `remove_group_member` with the target. An error answer is rethrown with the backend's message. A data answer is returned, and only then is the directory refetched. |
| Directory.DeleteGroup | src/hooks/useConversations.js:273-289 | Without a user it throws 'Not authenticated' and calls nothing. Otherwise it calls `delete_group`. An error answer is rethrown with the backend's message. A data answer is returned, and only then is the directory refetched. |
| Directory.MutatorsShareOutcome | src/hooks/useConversations.js:214-289 | For the same user and answer, the leave, add, remove and delete mutators end identically. A failure carries the backend's message, or 'Not authenticated' without a user. |
| ChatLayout.FindIndex | src/components/Chat/ChatLayout.jsx:29 | The first entry with the id, or the length when there is none. |
| ChatLayout.ActiveConversation | src/components/Chat/ChatLayout.jsx:29 | Found exactly when some entry has the active id. The entry found carries that id. |
| ChatLayout.DisplayUser | src/components/Chat/ChatLayout.jsx:32 | The directory's other user when there is one, otherwise the pending user. |
| ChatLayout.HeaderOf | src/components/Chat/ChatLayout.jsx:36-42 | A group header shows the group name, else the pending name, else 'Group', and the member count followed by " members". A direct header shows the username or 'Chat', and the status or 'offline'. |
| ChatLayout.SetActive | src/components/Chat/ChatLayout.jsx:84-87 | Changing the active id clears the reply target. Setting the same id changes nothing. |
| ChatLayout.StartConversation | src/components/Chat/ChatLayout.jsx:44-69 | The profile is set before the call, and the clearing effect runs during the wait against the still-active conversation. If that conversation is listed, both placeholders are gone; otherwise the pending group is kept and, on success, the profile is pending. Success activates the answered id. Failure clears the pending user and keeps the active id and reply target. |
| ChatLayout.CreateGroup | src/components/Chat/ChatLayout.jsx:55-69 | The pending group records the invitee count plus one before the call. It survives the wait exactly when no listed conversation was active; otherwise both placeholders are cleared during the wait. Success activates the new id. Failure is passed on and keeps the active id and reply target. |
| ChatLayout.Reconcile | src/components/Chat/ChatLayout.jsx:64-69 | Once the active id is in the directory both placeholders are dropped. Otherwise nothing changes. |
| ChatLayout.ConfirmedHeaderIgnoresPlaceholders | src/components/Chat/ChatLayout.jsx:36-42 | After reconciliation the header depends on the directory only. |
| ChatLayout.ConfirmedDirectChatShowsOtherUser | src/components/Chat/ChatLayout.jsx:32 | A confirmed direct chat shows the directory's other user, never the pending profile. |
| ChatLayout.PendingGroupHeader | src/components/Chat/ChatLayout.jsx:36-59 | Creating "Trio" with two invitees while no listed conversation is open shows "Trio" and "3 members" until the directory lists it. |
| ChatLayout.PlaceholderLostWhenListedChatOpen | src/components/Chat/ChatLayout.jsx:44-69 | Starting a chat or creating a group while a listed conversation is open loses the placeholder during the wait, so the new conversation's header reads "Chat" and "offline" until the directory lists it. |
| ChatLayout.Select | src/components/Chat/ChatLayout.jsx:116-120 | Selecting drops both placeholders and activates the id. |
| ChatLayout.LeaveActive | src/components/Chat/ChatLayout.jsx:89-98 | Nothing happens without an active id. Success deactivates the conversation and closes the panel. A failure is caught and logged, so the handler still returns normally and the layout is unchanged; ChatLayout.PanelLeave shows what the panel then does. |
| ChatLayout.DeleteGroup | src/components/Chat/ChatLayout.jsx:100-108 | Success deactivates the conversation and closes the panel. Both placeholders are kept, and the reply target is cleared exactly when a conversation was active. A failure is caught and logged, so the handler still returns normally and the layout is unchanged; ChatLayout.PanelDelete shows what the panel then does. |
| ChatLayout.ReplyTo | src/components/Chat/ChatLayout.jsx:80-82 | Records the message replied to. |
| ChatLayout.OpenGroupInfo | src/components/Chat/ChatLayout.jsx:130 | A header click opens the panel exactly for a group, and nothing else changes. |
| ChatLayout.HandleSend | src/components/Chat/ChatLayout.jsx:71-77 | Sends through `sendMessage`, so the insert is skipped exactly as there. The reply id has no effect on the inserted row. The result is only logged, and the handler always returns normally (see ChatLayout.ComposerSend). |
| ChatLayout.ComposerSend | src/components/Chat/ChatLayout.jsx:71-77 | The composer wired to this handler: a submit that is not refused sends the field's text with no reply id, and for every answer, failure included, empties the field and sets `justSent`, because the handler never rejects. |
| ChatLayout.FailedInsertClearsField | src/components/Chat/MessageInput.jsx:23-25 | When the insert fails, the send is reported as failed to the log, yet the field is emptied: the typed message is lost. |
| ChatLayout.PanelLeave | src/components/Chat/GroupInfoPanel.jsx:29-38 | The panel's leave wired to `handleLeaveGroup`: the panel closes whatever the answer. Only a successful leave deactivates the conversation; otherwise the layout only loses the panel. |
| ChatLayout.PanelDelete | src/components/Chat/GroupInfoPanel.jsx:60-70 | The panel's delete wired to `handleDeleteGroup`: the panel closes whatever the answer. Success changes the layout exactly as the handler does: no active id, no panel, the placeholders kept and the reply target cleared exactly when a conversation was active. Otherwise the layout only loses the panel. |
| ChatLayout.FailedLeaveKeepsConversation | src/components/Chat/ChatLayout.jsx:89-98 | After a failed leave the panel is gone, but the group stays active and its header is unchanged. |
| Selection.WithoutId | src/components/Chat/CreateGroupModal.jsx:21 | Removes every entry with the id. Every other entry is kept, as often as before. A selection without the id is returned unchanged. |
| Selection.WithoutIdKeepsOrder | src/components/Chat/CreateGroupModal.jsx:21 | The removal keeps relative order: it distributes over concatenation. |
| Selection.Toggle | src/components/Chat/CreateGroupModal.jsx:17-26 | Flips the user's selected status and leaves every other id's status alone. An unselected user is appended; a selected user is removed by id with the rest kept in order. |
| Selection.ToggleTwiceRestores | src/components/Chat/AddMemberModal.jsx:13-22 | Toggling an unselected user twice restores the selection exactly. |
| Selection.ToggleTwiceMovesToEnd | src/components/Chat/AddMemberModal.jsx:13-22 | Toggling a selected user twice moves that user to the end. |
| Selection.SelectedIds | src/components/Chat/CreateGroupModal.jsx:52 | The ids of the selection, in order. An id is among them exactly when some selected user has it. |
| Selection.ToggleDecidesSentIds | src/components/Chat/CreateGroupModal.jsx:17-26 | After a toggle, the user's id is among the ids sent exactly when the user was not selected before. |
| CreateGroupModal.InsertId | src/components/Chat/CreateGroupModal.jsx:35 | Inserting into a sorted list keeps it sorted and adds exactly the id. |
| CreateGroupModal.SortIds | src/components/Chat/CreateGroupModal.jsx:35 | `sort()` gives the same ids in ascending order. |
| CreateGroupModal.SortedUnique | src/components/Chat/CreateGroupModal.jsx:41-43 | Two sorted lists with the same ids are equal, so comparing sorted lists index by index compares multisets. |
| CreateGroupModal.SortedHeadsAgree | src/components/Chat/CreateGroupModal.jsx:43 | Sorted lists with the same ids start with the same id. |
| CreateGroupModal.DropHead | src/components/Chat/CreateGroupModal.jsx:43 | Dropping the head removes one copy of it from the ids. |
| CreateGroupModal.ParticipantIds | src/components/Chat/CreateGroupModal.jsx:41 | A group's participant ids, in order; an id is among them exactly when some participant has it. A direct chat gives none. |
| CreateGroupModal.MatchesIffSameNameAndMembers | src/components/Chat/CreateGroupModal.jsx:33-45 | A group is a duplicate exactly when its name matches ignoring case and its members equal the new members plus the creator, as a multiset. |
| CreateGroupModal.DifferentSizeNeverMatches | src/components/Chat/CreateGroupModal.jsx:42 | Groups of a different size never match. |
| CreateGroupModal.FirstMatch | src/components/Chat/CreateGroupModal.jsx:36 | The first matching group, or the length when there is none. |
| CreateGroupModal.FindDuplicate | src/components/Chat/CreateGroupModal.jsx:33-45 | Finds nothing exactly when no group matches. Otherwise it returns the first matching group. |
| CreateGroupModal.HandleCreate | src/components/Chat/CreateGroupModal.jsx:48-69 | An invalid form (blank name or fewer than two users) does nothing. A first duplicate only raises the warning. Otherwise the trimmed name and the ids in selection order are requested, and the dialog closes exactly on success. |
| CreateGroupModal.WarnThenCreateAnyway | src/components/Chat/CreateGroupModal.jsx:55-62 | The first press on a duplicate warns, and the second press sends the request. |
| CreateGroupModal.ButtonMatchesGuard | src/components/Chat/CreateGroupModal.jsx:166 | When no creation is in flight, the button is disabled exactly when a press would do nothing. |
| CreateGroupModal.EditName | src/components/Chat/CreateGroupModal.jsx:72-75 | A new name clears the warning. |
| CreateGroupModal.ToggleWithReset | src/components/Chat/CreateGroupModal.jsx:77-80 | Toggling a user flips their status and clears the warning. |
| AddMemberModal.AvailableUsers | src/components/Chat/AddMemberModal.jsx:29 | Offers exactly the results that are not members, each as often as it appears. |
| AddMemberModal.AvailableUsersKeepsOrder | src/components/Chat/AddMemberModal.jsx:29 | The filter keeps relative order: it distributes over concatenation. |
| AddMemberModal.HandleAdd | src/components/Chat/AddMemberModal.jsx:31-43 | An empty selection does nothing. Otherwise the ids are passed on in selection order, the dialog closes exactly on success, and `adding` is reset. |
| AddMemberModal.EnabledButtonAdds | src/components/Chat/AddMemberModal.jsx:116 | An enabled button always leads to a request. |
| AddMemberModal.AddLabel | src/components/Chat/AddMemberModal.jsx:119 | The label is "Add ", then the count, then " Member", and a final 's' exactly when the count is not 1. |
| AddMemberModal.LabelShowsCount | src/components/Chat/AddMemberModal.jsx:119 | The number in the label reads back as the count. |
| Text.LeadingSpaces | src/components/Chat/GroupInfoPanel.jsx:22 | The white space in front, up to the first non-space. |
| Text.TrailingSpaces | src/components/Chat/GroupInfoPanel.jsx:22 | The white space at the end, back to the last non-space. |
| Text.Trim | src/components/Chat/MessageInput.jsx:19 | `trim` is empty exactly for a blank string, and its result starts and ends with a non-space. |
| Text.TrimKeepsTrimmed | src/components/Chat/MessageInput.jsx:56 | A string with non-space ends is its own trim. |
| Text.TrimIsInfix | src/hooks/useMessages.js:122-129 | The trimmed string is the input with blank margins cut off, and trimming is idempotent. |
| Text.Contains | src/lib/errorHandler.js:8 | `includes` holds exactly when the substring occurs at some position. |
| Text.Decimal | src/components/Chat/AddMemberModal.jsx:119 | A count renders as non-empty decimal digits with no leading zero. |
| Text.DecimalRoundTrip | src/components/Chat/ChatLayout.jsx:41 | A rendered count reads back as the count. |
| GroupInfoPanel.WordLength | src/components/Chat/GroupInfoPanel.jsx:22 | The first word runs up to the first white space. |
| GroupInfoPanel.WholeWordIffNoSpace | src/components/Chat/GroupInfoPanel.jsx:22-23 | The first word is the whole string exactly when there is no white space. |
| GroupInfoPanel.NextWord | src/components/Chat/GroupInfoPanel.jsx:22 | The second piece starts after a maximal run of white space. |
| GroupInfoPanel.SplitWords | src/components/Chat/GroupInfoPanel.jsx:22 | `split(/\s+/)` gives a single piece exactly when there is no white space. No piece contains white space, and the first piece is the first word. |
| GroupInfoPanel.SecondWordStart | src/components/Chat/GroupInfoPanel.jsx:22-26 | In a trimmed string the first word is non-empty and the rest after the spaces is trimmed. |
| GroupInfoPanel.TrimmedWordsNonEmpty | src/components/Chat/GroupInfoPanel.jsx:26 | Splitting a trimmed string gives no empty word, so `words[k][0]` exists. |
| GroupInfoPanel.SplitWordsDropsOnlySpace | src/components/Chat/GroupInfoPanel.jsx:22 | Gluing the pieces back together gives the string with its white space removed. |
| GroupInfoPanel.GetInitials | src/components/Chat/GroupInfoPanel.jsx:20-27 | 'G' without a name. A blank name gives "". A single word gives its first two characters in upper case. Several words give the upper-cased first characters of the first and second words. |
| GroupInfoPanel.FirstTwoWords | src/components/Chat/GroupInfoPanel.jsx:26 | The first two words start at the first character and at the first non-space after the first space. |
| GroupInfoPanel.InitialsExamples | src/components/Chat/GroupInfoPanel.jsx:20-27 | "yahoo" gives "YA", a name of spaces gives "", and no name gives "G". |
| GroupInfoPanel.FindMember | src/components/Chat/GroupInfoPanel.jsx:57 | The viewer's first entry, or the length when there is none. |
| GroupInfoPanel.IsAdmin | src/components/Chat/GroupInfoPanel.jsx:57-58 | Admin exactly when the viewer's first entry has the role 'admin'. Never admin without a viewer. |
| GroupInfoPanel.AdminIffAdminEntry | src/components/Chat/GroupInfoPanel.jsx:57-58 | With one entry per user, the viewer is admin exactly when some entry for them has the admin role. |
| GroupInfoPanel.MemberIds | src/components/Chat/GroupInfoPanel.jsx:149 | The participants' ids, in order; an id is among them exactly when some participant has it. |
| GroupInfoPanel.AddDialogOffersOnlyNewcomers | src/components/Chat/GroupInfoPanel.jsx:144-151 | The add dialog opened from the panel offers a search result exactly when no participant of the group has its id. |
| GroupInfoPanel.Removable | src/components/Chat/GroupInfoPanel.jsx:240 | A remove control appears exactly on the other members' entries, and only for an admin. |
| GroupInfoPanel.View | src/components/Chat/GroupInfoPanel.jsx:15-17 | Nothing without a conversation. Otherwise the view has the participant count, the existing ids, the per-member remove controls, leave always, add and delete exactly for an admin, and the initials. |
| GroupInfoPanel.NeverRemoveSelf | src/components/Chat/GroupInfoPanel.jsx:240 | The viewer's own entry, and every entry for a non-admin, has no remove control. |
| GroupInfoPanel.HandleRemoveMember | src/components/Chat/GroupInfoPanel.jsx:45-54 | Nothing without a target or handler. Otherwise the target is removed, and the target is cleared exactly on success. |
| GroupInfoPanel.HandleAddMembers | src/components/Chat/GroupInfoPanel.jsx:40-43 | Nothing without a handler. Otherwise `add_group_members` is called for this conversation with the ids, and the outcome is passed back. |
| GroupInfoPanel.Finish | src/components/Chat/GroupInfoPanel.jsx:29-38 | The panel's own handler given how its parent handler settled: it closes exactly when the parent returned normally, and the busy flag is cleared exactly when it threw. A delete without a handler does nothing. The parents in ChatLayout never throw (see ChatLayout.PanelLeave). |
| MessageInput.Edit | src/components/Chat/MessageInput.jsx:47-49 | Typing replaces the text, except while a send is in flight, when the field is disabled. |
| MessageInput.DisabledIffRefused | src/components/Chat/MessageInput.jsx:56 | The button is disabled exactly when a submit would be refused. |
| MessageInput.BeginSubmit | src/components/Chat/MessageInput.jsx:19-23 | A refused submit changes nothing. Otherwise the send is marked in flight and the untrimmed text is handed on. |
| MessageInput.FinishSubmit | src/components/Chat/MessageInput.jsx:24-30 | Success empties the field and sets `justSent`. Failure keeps the text. Either way the send ends. |
| MessageInput.Submit | src/components/Chat/MessageInput.jsx:17-31 | The whole submit. A failed send leaves the state exactly as it was. |
| MessageInput.SubmitSendsTypedText | src/components/Chat/MessageInput.jsx:17-49 | What was typed last is what a submit sends, and typing during the send cannot change it. |
| MessageInput.FailedSendCanRetry | src/components/Chat/MessageInput.jsx:26-30 | With a parent handler that rejects, a retry after the failure sends the same text. ChatLayout's handler never rejects (see ChatLayout.ComposerSend). |
| MessageInput.SentFieldRefusesResubmit | src/components/Chat/MessageInput.jsx:19-25 | After a success, a second submit is refused. |
| MessageInput.KeyDown | src/components/Chat/MessageInput.jsx:33-38 | Enter without Shift submits. Any other key does nothing. |
| MessageInput.Refocus | src/components/Chat/MessageInput.jsx:10-15 | Focus moves exactly when `justSent` is set and no send is in flight, and the flag is then cleared. |
| MessageInput.SuccessRefocusesEmptyField | src/components/Chat/MessageInput.jsx:10-25 | A successful send ends with focus on an empty field and no flag left over. |
| ErrorHandler.Classify | src/lib/errorHandler.js:8-29 | The first applicable test decides, in order: session (JWT or PGRST301), rate ('rate' or code 42501), network ('network' or 'fetch'), then permission (code 42501 or 'permission'). Each category, Unclassified included, holds exactly when its own test passes and every earlier one fails. |
| ErrorHandler.HandleError | src/lib/errorHandler.js:4-30 | Each category gets its message. The redirect to login happens exactly for an expired session. The fallback is the error's own message when it is non-empty, else the generic text. The message is never empty. |
| ErrorHandler.CodeNeverReachesPermission | src/lib/errorHandler.js:14-26 | Code 42501 is caught by the rate test, so the permission test's own check of that code can never decide, and the permission message is never shown for it. |
| ErrorHandler.SessionTakesPrecedence | src/lib/errorHandler.js:8-11 | A JWT complaint always redirects with the session message. |
| ErrorHandler.SubstringRateExample | src/lib/errorHandler.js:14 | "separate" contains 'rate', so it is reported as rate limiting. |
| ReplyPreview.Truncate | src/components/Chat/ReplyPreview.jsx:8 | Content of up to 80 characters is shown unchanged. Longer content shows its first 80 characters and '...'. |
| ReplyPreview.TruncateIsStable | src/components/Chat/ReplyPreview.jsx:8 | A preview is at most 83 characters, and truncating it again changes nothing. |
| ReplyPreview.SenderName | src/components/Chat/ReplyPreview.jsx:6 | The sender's non-empty username, else 'Unknown'. |
| ReplyPreview.Render | src/components/Chat/ReplyPreview.jsx:3-8 | Nothing without a message. Otherwise the sender and the truncated content. |
| Avatar.Initials | src/components/Common/Avatar.jsx:4 | '??' without a name. Otherwise the first one or two characters in upper case. |
| Avatar.InitialsShape | src/components/Common/Avatar.jsx:4 | Initials are one or two characters. |
| Avatar.SizeClass | src/components/Common/Avatar.jsx:3-10 | 'sm', 'md' and 'lg' get their class. Any other size, and a missing one, get 'avatar-md'. |
| Avatar.SizeClassIsKnown | src/components/Common/Avatar.jsx:6-10 | Every size lands on one of the three classes. |
| Avatar.Render | src/components/Common/Avatar.jsx:12-23 | The image exactly when `src` is non-empty, else the initials. The status dot appears exactly for a non-empty status. |
| SignupPage.Validate | src/pages/SignupPage.jsx:20-29 | Valid exactly when the username has at least 3 characters and the password at least 6. The username is checked first. |
| SignupPage.HandleSubmit | src/pages/SignupPage.jsx:15-42 | The old error is cleared. Invalid input shows its message without a call. Valid input calls `signUp` with the three fields and navigates exactly on success. A failure shows the error's message or the generic one. Loading ends, and no other field changes. |
| SignupPage.UsernameCheckedFirst | src/pages/SignupPage.jsx:20-24 | A form failing both checks reports the username problem and makes no call. |
| SignupPage.ErrorIsFresh | src/pages/SignupPage.jsx:17-38 | The error shown after a submit is empty, a validation message, the generic text, or the backend's message. |

## Left out

- Supabase queries, RPCs, auth and realtime channels: each answer is a `Reply` input, and subscribing and unsubscribing are not modelled.
- Concurrency: overlapping fetches, stale answers and React's batching of state updates are not modelled. Each handler is modelled as one step once its awaited call has answered. Between the synchronous part and the answer, the only modelled effect is the placeholder clearing, against a directory the caller supplies.
- `getOrCreateConversation` (src/hooks/useConversations.js:146-181): the lookup and creation happen entirely on the backend, so `ChatLayout.StartConversation` takes its answer as an input.
- `refetch` (src/hooks/useConversations.js:207-211) and the realtime trigger that refetches the directory: a refetch is recorded as the `refetch` flag of a `Directory.Mutation`.
- `useUsers` and the search field: the search results are an input to `AddMemberModal.AvailableUsers`.
- Rendering, CSS classes other than the avatar's, and the confirmation dialogs' open/close flags in the group panel.
- Console logging, `e.preventDefault()`, input focus as a DOM effect (modelled as a flag), `window.location` (modelled as `redirectToLogin`), and `navigate('/')` (modelled as `navigated`).
- SignupPage.HandleSubmit: the `setTimeout` that clears a validation message after two seconds is not modelled, because it depends on a clock.
- Timeline.Fetch: the `loading := true` set before the query is folded into `Timeline.OnConversationChange`, and the hook's `error` field is never cleared, as in the code.
- ReplyPreview.Render: message content is a string in the model, so the `|| ''` fallback for a missing content is the identity.
- Text.Upper: upper-cases ASCII letters only. Unicode case mapping and lengths counted in UTF-16 code units are not modelled.
- Avatar.SizeClass: keys that the size object inherits from its prototype (such as 'toString') are not modelled.
- CreateGroupModal.SortIds: JavaScript's default `sort()` compares the ids as strings. The model sorts them as integers. The duplicate check only needs some total order, so the outcome is the same.
- ChatLayout.HandleSend: returns how `sendMessage` settled, which the handler only logs; the caller sees a normal return, as ChatLayout.ComposerSend states.
- ChatLayout.LeaveActive: a `Threw` mutation is the logged failure, not a rejection seen by the panel; ChatLayout.PanelLeave states the panel's view.
- ChatLayout.DeleteGroup: likewise for a failed delete; ChatLayout.PanelDelete states the panel's view.
- MessageInput.FailedSendCanRetry and GroupInfoPanel.Finish: their failure branches describe the components with a parent handler that can throw. The parents in ChatLayout never do, and the composed behaviour is stated by ChatLayout.ComposerSend, ChatLayout.PanelLeave and ChatLayout.PanelDelete.
- Timestamps are integers, and the database's `created_at` ordering is modelled by integer comparison.
