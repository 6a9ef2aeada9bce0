# Fake-passcode panic actions: chat removal and decoy messages

When a fake passcode is entered, the Telegram fork runs configured "panic"
actions against one account. This project models two of them and the
calls they issue into the messaging stack.

- **RemoveChatsAction** holds a list of dialog ids, `chatsToRemove`.
  - The sign of an id decides what it names. A positive id is a user. Any other id is the chat cached under `-id`, and id 0 takes that branch.
  - A chat the account is still in is left by removing the account's own user from it.
  - Every other id has its dialog dropped. A target that is a bot, but not a support account, is then blocked.
  - The ids are handled in list order. Afterwards the list is cleared and the configuration saved once.
- **TelegramMessageAction** holds a list of entries, `chatsToSendingMessages`. Each entry is a peer, a text and a location flag.
  - For each entry it sends the text, with the last known location appended when the flag is set.
  - It then scans the controller's cached index of last dialog messages for the first message with exactly that text. The scan covers every dialog, not only the target's.
  - The local id of the message found is remembered in `oldMessageIds`, and the message is deleted right away in the target's dialog.
  - Once the server confirms a message whose old local id is remembered, the confirmed message is deleted again, in the dialog the confirmation names.
  - Remembered ids are never removed, so a repeated confirmation deletes again.

The model is imperative, like the code.
- The two actions are classes with the source's fields.
- `execute()` and the notification handler are methods.
- Every collaborator call, including the lookups, is recorded as one event of an ordered trace that the method returns.
- Each method is proved equal to a specification function of its inputs and its old state. The properties are lemmas about those functions.

Java's `int` arithmetic is written out in module `Ints`:
- unary minus wraps, so `-Integer.MIN_VALUE` stays `Integer.MIN_VALUE`;
- `Long.valueOf(x).intValue()` keeps the low 32 bits.

Files:
- `ints.dfy`: Java `int` and `long` and their conversions.
- `messenger.dfy`: the records the actions read, and the trace events.
- `remove_chats.dfy`: `RemoveChatsAction`.
- `telegram_message.dfy`: `TelegramMessageAction`.

## Model

| member | source | states |
|---|---|---|
| Ints.Negate32 | TMessagesProj/src/main/java/org/telegram/messenger/fakepasscode/RemoveChatsAction.java:44 | Java's `-x` on `int`: the mathematical negation except at `MIN_VALUE`, which maps to itself; always congruent to `-x` modulo 2^32 |
| Ints.Negate32Involution | TMessagesProj/src/main/java/org/telegram/messenger/fakepasscode/RemoveChatsAction.java:37 | negating twice gives back the id, so `-id` names each chat from exactly one list id |
| Ints.LongToInt | TMessagesProj/src/main/java/org/telegram/messenger/fakepasscode/TelegramMessageAction.java:92 | `Long.valueOf(dialog_id).intValue()`: identity on values that fit an `int`, otherwise the value congruent modulo 2^32 in `int` range |
| RemoveChats.RemoveCalls | TMessagesProj/src/main/java/org/telegram/messenger/fakepasscode/RemoveChatsAction.java:31-52 | the calls one loop iteration issues for one id; what they are is stated by RemoveCallsShape, RemoveCallsLookups, RemoveCallsRemovals, RemoveCallsBlocks and RemoveCallsNothingElse |
| RemoveChats.RemoveCallsShape | TMessagesProj/src/main/java/org/telegram/messenger/fakepasscode/RemoveChatsAction.java:31-52 | the group of one id: its lookup, then leaving a still-joined chat as the own user; or dropping the dialog, followed by a block exactly for a non-support bot |
| RemoveChats.RemoveCallsLookups | TMessagesProj/src/main/java/org/telegram/messenger/fakepasscode/RemoveChatsAction.java:31-43 | the sign picks the first lookup (the user for a positive id, the chat `-id` otherwise); the only other lookup is of the own user when leaving a chat |
| RemoveChats.RemoveCallsRemovals | TMessagesProj/src/main/java/org/telegram/messenger/fakepasscode/RemoveChatsAction.java:39-47 | for one id: the dialog is dropped if and only if the id names no chat still joined; the chat `-id` is left with the own user record if and only if it does |
| RemoveChats.RemoveCallsBlocks | TMessagesProj/src/main/java/org/telegram/messenger/fakepasscode/RemoveChatsAction.java:46-51 | for one id: a block happens if and only if the id is a cached non-support bot, and then it directly follows the dropped dialog |
| RemoveChats.RemoveCallsNothingElse | TMessagesProj/src/main/java/org/telegram/messenger/fakepasscode/RemoveChatsAction.java:30-53 | the group of an id neither subscribes, saves, sends nor deletes messages |
| RemoveChats.ProcessAll | TMessagesProj/src/main/java/org/telegram/messenger/fakepasscode/RemoveChatsAction.java:30-53 | the calls of the whole loop, the groups of the ids concatenated in list order; characterised by InProcessAll and ProcessedInOrder and, per kind of call, by DroppedDialogs, LeftChats, BlockedPeers, ChatLookups and UserLookups |
| RemoveChats.ExecuteCalls | TMessagesProj/src/main/java/org/telegram/messenger/fakepasscode/RemoveChatsAction.java:24-56 | an empty list issues nothing; otherwise the groups of all ids, then one save, and no save before it |
| RemoveChats.InProcessAll | TMessagesProj/src/main/java/org/telegram/messenger/fakepasscode/RemoveChatsAction.java:30-53 | a call happens in the loop exactly when it belongs to the group of some listed id |
| RemoveChats.ProcessedInOrder | TMessagesProj/src/main/java/org/telegram/messenger/fakepasscode/RemoveChatsAction.java:30-53 | ids are handled one after another in list order: the calls of the ids before, the group of this id, the calls of the ids after; a duplicate id is handled twice |
| RemoveChats.DroppedDialogs | TMessagesProj/src/main/java/org/telegram/messenger/fakepasscode/RemoveChatsAction.java:39-47 | a dialog is dropped if and only if its id is listed and does not name a chat the account is still in |
| RemoveChats.LeftChats | TMessagesProj/src/main/java/org/telegram/messenger/fakepasscode/RemoveChatsAction.java:42-44 | the account leaves chat `k` if and only if `-k` is listed and names a chat it is still in, and then it passes its own user record |
| RemoveChats.BlockedPeers | TMessagesProj/src/main/java/org/telegram/messenger/fakepasscode/RemoveChatsAction.java:46-51 | a peer is blocked if and only if it is listed and is a cached non-support bot; a non-positive id is never blocked |
| RemoveChats.ChatLookups | TMessagesProj/src/main/java/org/telegram/messenger/fakepasscode/RemoveChatsAction.java:33-38 | chat `k` is looked up if and only if `-k` is listed and not positive |
| RemoveChats.UserLookups | TMessagesProj/src/main/java/org/telegram/messenger/fakepasscode/RemoveChatsAction.java:33-44 | a user is looked up only for a listed positive id or for the account's own user |
| RemoveChats.LeftGroupAndBot | TMessagesProj/src/main/java/org/telegram/messenger/fakepasscode/RemoveChatsAction.java:24-56 | `[-5, 7]` with chat 5 not joined and user 7 a bot: look up and drop `-5`, look up, drop and block 7, save |
| RemoveChats.RemoveChatsAction.constructor | TMessagesProj/src/main/java/org/telegram/messenger/fakepasscode/RemoveChatsAction.java:17 | the default action has an empty list and account 0 |
| RemoveChats.RemoveChatsAction.Init | TMessagesProj/src/main/java/org/telegram/messenger/fakepasscode/RemoveChatsAction.java:19-22 | the two-argument constructor stores the account number and the list |
| RemoveChats.RemoveChatsAction.Execute | TMessagesProj/src/main/java/org/telegram/messenger/fakepasscode/RemoveChatsAction.java:24-56 | the calls issued are those of ExecuteCalls for the list as it was, and the list is empty afterwards |
| TelegramMessage.ComposeText | TMessagesProj/src/main/java/org/telegram/messenger/fakepasscode/TelegramMessageAction.java:53-56 | the text sent for an entry; characterised by ComposedText |
| TelegramMessage.ComposedText | TMessagesProj/src/main/java/org/telegram/messenger/fakepasscode/TelegramMessageAction.java:53-56 | the sent text is the entry's text followed by the location exactly when the entry asks for it |
| TelegramMessage.FirstMatch | TMessagesProj/src/main/java/org/telegram/messenger/fakepasscode/TelegramMessageAction.java:60-66 | the scan's hit, when there is one, is a position of the index |
| TelegramMessage.FirstMatchIsFirst | TMessagesProj/src/main/java/org/telegram/messenger/fakepasscode/TelegramMessageAction.java:60-66 | the scan finds a message exactly when some cached message has a text equal to the sent one, and then the first such in index order |
| TelegramMessage.DeleteMessageCall | TMessagesProj/src/main/java/org/telegram/messenger/fakepasscode/TelegramMessageAction.java:77-83 | `deleteMessage` deletes only the given id, in the given dialog, with channel id 0 for a positive dialog and Java's wrapped `-chatId` otherwise (0 for 0, `MIN_VALUE` for `MIN_VALUE`, positive for every other negative id) |
| TelegramMessage.ExecuteCalls | TMessagesProj/src/main/java/org/telegram/messenger/fakepasscode/TelegramMessageAction.java:43-75 | everything `execute()` issues; its layout is stated by ExecuteBookkeeping and its send loop by SendsInListOrder and RememberedAreDeleted |
| TelegramMessage.ExecuteBookkeeping | TMessagesProj/src/main/java/org/telegram/messenger/fakepasscode/TelegramMessageAction.java:43-75 | an empty list issues nothing; otherwise the subscription comes first and only there, one save last and only there, the send loop in between |
| TelegramMessage.NoBookkeepingInSendLoop | TMessagesProj/src/main/java/org/telegram/messenger/fakepasscode/TelegramMessageAction.java:52-72 | the send loop itself neither subscribes nor saves |
| TelegramMessage.EntryCalls | TMessagesProj/src/main/java/org/telegram/messenger/fakepasscode/TelegramMessageAction.java:53-71 | the calls of one loop round; characterised by EntryGroup, and over the whole loop by SendsInListOrder and RememberedAreDeleted |
| TelegramMessage.EntryGroup | TMessagesProj/src/main/java/org/telegram/messenger/fakepasscode/TelegramMessageAction.java:53-71 | each entry first sends its composed text to its peer, then deletes the found message in that peer's dialog exactly when the scan found one |
| TelegramMessage.SendsInListOrder | TMessagesProj/src/main/java/org/telegram/messenger/fakepasscode/TelegramMessageAction.java:52-58 | one send per entry, in list order, each of the entry's composed text to the entry's peer |
| TelegramMessage.RememberedAreDeleted | TMessagesProj/src/main/java/org/telegram/messenger/fakepasscode/TelegramMessageAction.java:68-71 | the ids remembered are exactly the ids deleted during the loop |
| TelegramMessage.MatchedIdsContain | TMessagesProj/src/main/java/org/telegram/messenger/fakepasscode/TelegramMessageAction.java:68-69 | an id remembered for one entry stays remembered to the end of the loop |
| TelegramMessage.MatchedUpToMembers | TMessagesProj/src/main/java/org/telegram/messenger/fakepasscode/TelegramMessageAction.java:59-71 | an id is remembered by the loop if and only if the scan of some entry found it |
| TelegramMessage.ConfirmationAfterExecute | TMessagesProj/src/main/java/org/telegram/messenger/fakepasscode/TelegramMessageAction.java:85-93 | after `execute()`, a confirmation deletes if and only if it carries a message and its old id was remembered before or found by a scan; it then deletes the confirmed message in its truncated dialog, and otherwise issues nothing |
| TelegramMessage.ConfirmedDecoyIsDeleted | TMessagesProj/src/main/java/org/telegram/messenger/fakepasscode/TelegramMessageAction.java:85-93 | a confirmation for an id `execute()` remembered deletes the confirmed message |
| TelegramMessage.MatchInAnotherDialog | TMessagesProj/src/main/java/org/telegram/messenger/fakepasscode/TelegramMessageAction.java:59-71 | a same-text message cached for another dialog is picked, and its id is deleted in the target's dialog |
| TelegramMessage.ConfirmedDecoy | TMessagesProj/src/main/java/org/telegram/messenger/fakepasscode/TelegramMessageAction.java:43-93 | entry "hi" to 42 with local message 99 found: send, delete 99 in 42, save; 99 is remembered and its confirmation as 777 deletes 777 in 42 |
| TelegramMessage.TelegramMessageAction.constructor | TMessagesProj/src/main/java/org/telegram/messenger/fakepasscode/TelegramMessageAction.java:37-40 | a new action has no entries and no remembered ids |
| TelegramMessage.TelegramMessageAction.Execute | TMessagesProj/src/main/java/org/telegram/messenger/fakepasscode/TelegramMessageAction.java:43-75 | the calls issued are those of ExecuteCalls, and the remembered ids grow by exactly the ids the scans found |
| TelegramMessage.TelegramMessageAction.DidReceivedNotification | TMessagesProj/src/main/java/org/telegram/messenger/fakepasscode/TelegramMessageAction.java:85-93 | the calls issued are those of ConfirmationCalls for the remembered ids; nothing changes |
| TelegramMessage.SendEntry | TMessagesProj/src/main/java/org/telegram/messenger/fakepasscode/TelegramMessageAction.java:53-71 | one loop round issues the entry's group and reports the id it remembers |
| TelegramMessage.ScanDialogMessages | TMessagesProj/src/main/java/org/telegram/messenger/fakepasscode/TelegramMessageAction.java:59-66 | the loop over the index returns the message FirstMatch picks |

## Left out

- The collaborators are not modelled; each call is a trace event. This covers `sendMessage`, `deleteDialog`, `deleteUserFromChat`, `blockPeer`, `deleteMessages`, `addObserver` and `SharedConfig.saveConfig`. The other arguments they receive are constants in the code.
- `Utils.getLastLocationString()` is a parameter of `Execute`. It is read once, before the loop, as in the code.
- The controller's `dialogMessage` index is a parameter: one snapshot per entry, as the scan sees it right after that entry's send, because sending may change it. How sending changes it is not modelled.
- `MessagesController.isSupportUser` and `ChatObject.isNotInChat` are not part of this model. Their answers are the fields `User.isSupport` and `Chat.notInChat`.
- `AccountInstance`, the singletons and `accountNum` are reduced to the one `Account` value the method is given.
- Null entries and null elements of `chatsToRemove` raise `NullPointerException` in the code. These paths are not modelled; entries and ids are always present.
- A null entry text is not modelled; every entry has a text. With the location flag set, `text += geolocation` turns a null text into the string `"null"` followed by the location, which is then sent and scanned for like any text. With the flag unset, the null text is sent, and the scan raises `NullPointerException` at the first cached message that has a text.
- The `id` and `account` arguments of `didReceivedNotification` are not modelled. The handler ignores them.
- The cast of `args[0]` and `args[2]` is not modelled; the model receives an `int` and an optional message.
- Threads and the timing of notifications are not modelled; each call of the handler is one atomic step.
- `chatsToRemove` is the list object passed to the constructor, so clearing it also clears the caller's list. The model holds the list as a value and does not capture that aliasing.
- JSON serialisation (`@JsonIgnore`), the `Action`/`AccountAction` base classes and the settings screen are not part of this model.
