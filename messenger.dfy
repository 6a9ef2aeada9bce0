/**
 * The collaborators the panic actions talk to, seen from the actions:
 * the records they read (users, chats, cached dialog messages, server
 * confirmations) and the calls they issue, recorded as trace events.
 */
module Messenger {
  import opened Ints

  datatype Option<+T> = None | Some(value: T)

  /**
   * A `TLRPC.User` as the actions see it. `isSupport` stands for the answer of
   * `MessagesController.isSupportUser(user)`.
   */
  datatype User = User(id: Int32, bot: bool, isSupport: bool)

  /** A `TLRPC.Chat`; `notInChat` stands for the answer of `ChatObject.isNotInChat(chat)`. */
  datatype Chat = Chat(id: Int32, notInChat: bool)

  /**
   * What `AccountInstance.getInstance(accountNum)` holds for one account: the
   * users and chats its messages controller has cached, keyed by their ids,
   * and the id of the account's own user.
   */
  datatype Account = Account(users: map<Int32, User>, chats: map<Int32, Chat>, clientUserId: Int32)
  {
    /** `getUser(id)`, null when the id is unknown. */
    function GetUser(id: Int32): Option<User>
    {
      if id in users then Some(users[id]) else None
    }

    /** `getChat(id)`, null when the id is unknown. */
    function GetChat(id: Int32): Option<Chat>
    {
      if id in chats then Some(chats[id]) else None
    }
  }

  /**
   * One value of the controller's `dialogMessage` index: the last message of a
   * dialog, with the dialog's key, the message's local id and its text (null
   * when the message has none).
   */
  datatype DialogMessage = DialogMessage(dialogId: Int64, id: Int32, messageText: Option<string>)

  /** The `TLRPC.Message` a `messageReceivedByServer` notification carries. */
  datatype ServerMessage = ServerMessage(id: Int32, dialogId: Int64)

  /** A call of an action into its collaborators, in the order the action issues it. */
  datatype Call =
    | GetUser(userId: Int32)                    // MessagesController.getUser
    | GetChat(chatId: Int32)                    // MessagesController.getChat
    | DeleteDialog(dialogId: Int32)             // MessagesController.deleteDialog(id, 0, false)
    | DeleteUserFromChat(chatId: Int32, user: Option<User>)  // MessagesController.deleteUserFromChat
    | BlockPeer(peerId: Int32)                  // MessagesController.blockPeer
    | Subscribe                                 // NotificationCenter.addObserver(this, messageReceivedByServer)
    | SendMessage(text: string, peer: Int32)    // SendMessagesHelper.sendMessage
    | DeleteMessages(ids: seq<Int32>, dialogId: Int32, channelId: Int32)  // MessagesController.deleteMessages
    | SaveConfig                                // SharedConfig.saveConfig

  lemma TakeOneMore<T>(s: seq<T>, i: nat)
    requires i < |s|
    ensures s[..i + 1] == s[..i] + [s[i]]
  {
  }

  /** The trace of a loop that issues one group of calls per step: the groups, one after the other. */
  function Concat(groups: seq<seq<Call>>): seq<Call>
  {
    if groups == [] then []
    else Concat(groups[..|groups| - 1]) + groups[|groups| - 1]
  }

  lemma ConcatStep(groups: seq<seq<Call>>, g: seq<Call>)
    ensures Concat(groups + [g]) == Concat(groups) + g
  {
    assert (groups + [g])[..|groups|] == groups;
  }

  lemma {:induction false} ConcatAppend(a: seq<seq<Call>>, b: seq<seq<Call>>)
    ensures Concat(a + b) == Concat(a) + Concat(b)
  {
    if b == [] {
      assert a + b == a;
    } else {
      var n := |b| - 1;
      ConcatAppend(a, b[..n]);
      assert a + b == (a + b[..n]) + [b[n]];
      ConcatStep(a + b[..n], b[n]);
      ConcatStep(b[..n], b[n]);
      assert b == b[..n] + [b[n]];
    }
  }

  /** A call is in the trace exactly when it is in one of the groups. */
  lemma {:induction false} InConcat(c: Call, groups: seq<seq<Call>>)
    ensures c in Concat(groups) <==> exists i :: 0 <= i < |groups| && c in groups[i]
  {
    if groups != [] {
      var n := |groups| - 1;
      InConcat(c, groups[..n]);
      assert forall i :: 0 <= i < n ==> groups[..n][i] == groups[i];
    }
  }

  /** The groups before `i`, then group `i`, then the groups after it. */
  lemma ConcatSplit(groups: seq<seq<Call>>, i: nat)
    requires i < |groups|
    ensures Concat(groups) == Concat(groups[..i]) + groups[i] + Concat(groups[i + 1..])
  {
    var front, back := groups[..i + 1], groups[i + 1..];
    assert groups == front + back;
    ConcatAppend(front, back);
    TakeOneMore(groups, i);
    ConcatStep(groups[..i], groups[i]);
    calc {
      Concat(groups);
      Concat(front) + Concat(back);
      Concat(groups[..i]) + groups[i] + Concat(back);
    }
  }
}
