/**
 * `TelegramMessageAction`: the decoy messages. Each configured entry is sent
 * (its text, plus the last known location when asked); the cached
 * last-message-per-dialog index is then scanned for the first message with
 * exactly that text, whose local id is remembered and deleted at once. Later,
 * a server confirmation whose old local id was remembered gets the confirmed
 * message deleted too.
 */
module TelegramMessage {
  import opened Ints
  import opened Messenger

  /** One configured decoy message: the peer to send to, the text, and whether to add the location. */
  datatype Entry = Entry(userId: Int32, text: string, addGeolocation: bool)

  /** The text sent for an entry. */
  function ComposeText(entry: Entry, geolocation: string): string
  {
    if entry.addGeolocation then entry.text + geolocation else entry.text
  }

  /** The composed text starts with the entry's text and goes on with the location, or with nothing. */
  lemma ComposedText(entry: Entry, geolocation: string)
    ensures var r := ComposeText(entry, geolocation);
      && |r| == |entry.text| + (if entry.addGeolocation then |geolocation| else 0)
      && r[..|entry.text|] == entry.text
      && r[|entry.text|..] == if entry.addGeolocation then geolocation else ""
  {
  }

  /** A cached dialog message matches a sent text when it has a text with exactly that content. */
  predicate Matches(m: DialogMessage, text: string)
  {
    m.messageText.Some? && m.messageText.value == text
  }

  /** The position of the first message of the index, in index order, that matches `text`. */
  function FirstMatch(index: seq<DialogMessage>, text: string): (r: Option<nat>)
    ensures r.Some? ==> r.value < |index|
  {
    if index == [] then None
    else if Matches(index[0], text) then Some(0)
    else match FirstMatch(index[1..], text)
      case None => None
      case Some(k) => Some(k + 1)
  }

  /**
   * FirstMatch finds a matching message exactly when there is one, and then
   * the earliest one: no message before it matches.
   */
  lemma {:induction false} FirstMatchIsFirst(index: seq<DialogMessage>, text: string)
    ensures var r := FirstMatch(index, text);
      && (r.Some? ==> Matches(index[r.value], text))
      && (r.Some? ==> forall j :: 0 <= j < r.value ==> !Matches(index[j], text))
      && (r.None? <==> forall j :: 0 <= j < |index| ==> !Matches(index[j], text))
  {
    if index != [] && !Matches(index[0], text) {
      FirstMatchIsFirst(index[1..], text);
      assert forall j :: 1 <= j < |index| ==> index[j] == index[1..][j - 1];
    }
  }

  /** The message the scan picks for `text`, if any. */
  function MatchOf(index: seq<DialogMessage>, text: string): Option<DialogMessage>
  {
    match FirstMatch(index, text)
    case None => None
    case Some(k) => Some(index[k])
  }

  /**
   * `deleteMessage(chatId, messageId)`: a one-element id list, in dialog
   * `chatId`, with channel id 0 for a positive `chatId` and Java's `-chatId`
   * otherwise (0 stays 0 and `MIN_VALUE` stays `MIN_VALUE`).
   */
  function DeleteMessageCall(chatId: Int32, messageId: Int32): (c: Call)
    ensures c.DeleteMessages? && c.ids == [messageId] && c.dialogId == chatId
    ensures chatId > 0 ==> c.channelId == 0
    ensures chatId <= 0 ==> c.channelId == Negate32(chatId)
    ensures chatId < 0 && chatId != MIN_INT ==> c.channelId > 0
  {
    DeleteMessages([messageId], chatId, if chatId > 0 then 0 else Negate32(chatId))
  }

  /** The calls issued for one entry, given the index as seen right after its send. */
  function EntryCalls(entry: Entry, geolocation: string, index: seq<DialogMessage>): seq<Call>
  {
    var text := ComposeText(entry, geolocation);
    [SendMessage(text, entry.userId)] +
    match MatchOf(index, text)
    case None => []
    case Some(msg) => [DeleteMessageCall(entry.userId, msg.id)]
  }

  /** The local id an entry adds to `oldMessageIds`, if any. */
  function EntryMatch(entry: Entry, geolocation: string, index: seq<DialogMessage>): Option<Int32>
  {
    match MatchOf(index, ComposeText(entry, geolocation))
    case None => None
    case Some(msg) => Some(msg.id)
  }

  /** The ids an optional id stands for: none or one. */
  function AsSet(id: Option<Int32>): set<Int32>
  {
    if id.Some? then {id.value} else {}
  }

  /**
   * The calls of the first `n` rounds of the send loop; `observed[i]` is the
   * index as seen right after the i-th send.
   */
  function SentUpTo(entries: seq<Entry>, geolocation: string, observed: seq<seq<DialogMessage>>, n: nat): seq<Call>
    requires |observed| == |entries| && n <= |entries|
  {
    if n == 0 then []
    else SentUpTo(entries, geolocation, observed, n - 1) + EntryCalls(entries[n - 1], geolocation, observed[n - 1])
  }

  /** The local ids the first `n` rounds of the send loop remember. */
  function MatchedUpTo(entries: seq<Entry>, geolocation: string, observed: seq<seq<DialogMessage>>, n: nat): set<Int32>
    requires |observed| == |entries| && n <= |entries|
  {
    if n == 0 then {}
    else MatchedUpTo(entries, geolocation, observed, n - 1) + AsSet(EntryMatch(entries[n - 1], geolocation, observed[n - 1]))
  }

  /** The calls of the whole send loop. */
  function SendAll(entries: seq<Entry>, geolocation: string, observed: seq<seq<DialogMessage>>): seq<Call>
    requires |observed| == |entries|
  {
    SentUpTo(entries, geolocation, observed, |entries|)
  }

  /** The local ids the whole send loop remembers. */
  function MatchedIds(entries: seq<Entry>, geolocation: string, observed: seq<seq<DialogMessage>>): set<Int32>
    requires |observed| == |entries|
  {
    MatchedUpTo(entries, geolocation, observed, |entries|)
  }

  /** Everything `execute()` issues: the subscription, the send loop and one save. */
  function ExecuteCalls(entries: seq<Entry>, geolocation: string, observed: seq<seq<DialogMessage>>): seq<Call>
    requires |observed| == |entries|
  {
    if entries == [] then [] else [Subscribe] + SendAll(entries, geolocation, observed) + [SaveConfig]
  }

  /**
   * Nothing is issued for an empty list; otherwise the subscription comes
   * first and only there, one save comes last and only there, and the send
   * loop lies in between.
   */
  lemma ExecuteBookkeeping(entries: seq<Entry>, geolocation: string, observed: seq<seq<DialogMessage>>)
    requires |observed| == |entries|
    ensures var r := ExecuteCalls(entries, geolocation, observed);
      && (entries == [] <==> r == [])
      && (entries != [] ==> r[0] == Subscribe && Subscribe !in r[1..])
      && (entries != [] ==> r[|r| - 1] == SaveConfig && SaveConfig !in r[..|r| - 1])
      && (entries != [] ==> r[1..|r| - 1] == SendAll(entries, geolocation, observed))
  {
    if entries != [] {
      var loop := SendAll(entries, geolocation, observed);
      NoBookkeepingInSendLoop(entries, geolocation, observed, |entries|);
      var r := [Subscribe] + loop + [SaveConfig];
      assert r[1..] == loop + [SaveConfig];
      assert r[..|r| - 1] == [Subscribe] + loop;
      assert r[1..|r| - 1] == loop;
    }
  }

  /** What the handler issues for a confirmation `(oldId, message)` given the remembered ids. */
  function ConfirmationCalls(pending: set<Int32>, oldId: Int32, message: Option<ServerMessage>): (r: seq<Call>)
    ensures r == [] <==> message.None? || oldId !in pending
    ensures r != [] ==> r == [DeleteMessageCall(LongToInt(message.value.dialogId), message.value.id)]
  {
    if message.None? || oldId !in pending then []
    else [DeleteMessageCall(LongToInt(message.value.dialogId), message.value.id)]
  }

  /** The send loop neither subscribes nor saves. */
  lemma {:induction false} NoBookkeepingInSendLoop(entries: seq<Entry>, geolocation: string,
                                                   observed: seq<seq<DialogMessage>>, n: nat)
    requires |observed| == |entries| && n <= |entries|
    ensures Subscribe !in SentUpTo(entries, geolocation, observed, n)
    ensures SaveConfig !in SentUpTo(entries, geolocation, observed, n)
  {
    if n > 0 {
      NoBookkeepingInSendLoop(entries, geolocation, observed, n - 1);
    }
  }

  /**
   * The group of one entry: first the send of its composed text to its peer;
   * then, exactly when the scan found a message, the deletion of that message
   * in the entry's own dialog, right away.
   */
  lemma EntryGroup(entry: Entry, geolocation: string, index: seq<DialogMessage>)
    ensures var r := EntryCalls(entry, geolocation, index);
      && r[0] == SendMessage(ComposeText(entry, geolocation), entry.userId)
      && (EntryMatch(entry, geolocation, index).None? ==> |r| == 1)
      && (EntryMatch(entry, geolocation, index).Some? ==>
            r == [r[0], DeleteMessageCall(entry.userId, EntryMatch(entry, geolocation, index).value)])
  {
  }

  /** The `SendMessage` events of a trace, in order. */
  function Sends(calls: seq<Call>): seq<Call>
  {
    if calls == [] then []
    else Sends(calls[..|calls| - 1]) + (if calls[|calls| - 1].SendMessage? then [calls[|calls| - 1]] else [])
  }

  lemma {:induction false} SendsAppend(a: seq<Call>, b: seq<Call>)
    ensures Sends(a + b) == Sends(a) + Sends(b)
  {
    if b == [] {
      assert a + b == a;
    } else {
      SendsAppend(a, b[..|b| - 1]);
      assert (a + b)[..|a + b| - 1] == a + b[..|b| - 1];
    }
  }

  /** Appending a group that holds one send appends that send. */
  lemma SendsStep(front: seq<Call>, group: seq<Call>, send: Call)
    requires Sends(group) == [send]
    ensures Sends(front + group) == Sends(front) + [send]
  {
    SendsAppend(front, group);
  }

  /** The send an entry issues: its composed text, to its peer. */
  function SendOf(entry: Entry, geolocation: string): Call
  {
    SendMessage(ComposeText(entry, geolocation), entry.userId)
  }

  /** One entry's group holds one send: its composed text, to its peer. */
  lemma EntrySends(entry: Entry, geolocation: string, index: seq<DialogMessage>)
    ensures Sends(EntryCalls(entry, geolocation, index)) == [SendOf(entry, geolocation)]
  {
    var group := EntryCalls(entry, geolocation, index);
    assert group == [group[0]] + group[1..];
    SendsAppend([group[0]], group[1..]);
    assert [group[0]][..0] == [];
    assert Sends(group[1..]) == [] by {
      if |group| > 1 {
        assert group[1..][..0] == [];
      }
    }
  }

  /** The sends of the first `n` entries, one per entry, in list order. */
  function ExpectedSends(entries: seq<Entry>, geolocation: string, n: nat): seq<Call>
    requires n <= |entries|
  {
    if n == 0 then [] else ExpectedSends(entries, geolocation, n - 1) + [SendOf(entries[n - 1], geolocation)]
  }

  lemma {:induction false} ExpectedSendsAt(entries: seq<Entry>, geolocation: string, n: nat)
    requires n <= |entries|
    ensures |ExpectedSends(entries, geolocation, n)| == n
    ensures forall i :: 0 <= i < n ==> ExpectedSends(entries, geolocation, n)[i] == SendOf(entries[i], geolocation)
  {
    if n > 0 {
      ExpectedSendsAt(entries, geolocation, n - 1);
    }
  }

  lemma {:induction false} SentAreExpected(entries: seq<Entry>, geolocation: string,
                                           observed: seq<seq<DialogMessage>>, n: nat)
    requires |observed| == |entries| && n <= |entries|
    ensures Sends(SentUpTo(entries, geolocation, observed, n)) == ExpectedSends(entries, geolocation, n)
  {
    if n > 0 {
      var front := SentUpTo(entries, geolocation, observed, n - 1);
      var group := EntryCalls(entries[n - 1], geolocation, observed[n - 1]);
      var send := SendOf(entries[n - 1], geolocation);
      calc {
        Sends(SentUpTo(entries, geolocation, observed, n));
        Sends(front + group);
        { EntrySends(entries[n - 1], geolocation, observed[n - 1]); SendsStep(front, group, send); }
        Sends(front) + [send];
        { SentAreExpected(entries, geolocation, observed, n - 1); }
        ExpectedSends(entries, geolocation, n - 1) + [send];
        ExpectedSends(entries, geolocation, n);
      }
    }
  }

  /** One send per entry, in list order, of the entry's composed text to the entry's peer. */
  lemma SendsInListOrder(entries: seq<Entry>, geolocation: string, observed: seq<seq<DialogMessage>>)
    requires |observed| == |entries|
    ensures var s := Sends(SendAll(entries, geolocation, observed));
      && |s| == |entries|
      && forall i :: 0 <= i < |entries| ==> s[i] == SendMessage(ComposeText(entries[i], geolocation), entries[i].userId)
  {
    SentAreExpected(entries, geolocation, observed, |entries|);
    ExpectedSendsAt(entries, geolocation, |entries|);
  }

  /** The message ids the `DeleteMessages` events of a trace delete. */
  function DeletedIds(calls: seq<Call>): set<Int32>
  {
    if calls == [] then {}
    else
      var c := calls[|calls| - 1];
      DeletedIds(calls[..|calls| - 1]) + (if c.DeleteMessages? then set m | m in c.ids else {})
  }

  lemma {:induction false} DeletedIdsAppend(a: seq<Call>, b: seq<Call>)
    ensures DeletedIds(a + b) == DeletedIds(a) + DeletedIds(b)
  {
    if b == [] {
      assert a + b == a;
    } else {
      DeletedIdsAppend(a, b[..|b| - 1]);
      assert (a + b)[..|a + b| - 1] == a + b[..|b| - 1];
    }
  }

  /** One entry's group deletes exactly the id the entry remembers. */
  lemma EntryDeletes(entry: Entry, geolocation: string, index: seq<DialogMessage>)
    ensures DeletedIds(EntryCalls(entry, geolocation, index)) == AsSet(EntryMatch(entry, geolocation, index))
  {
    var group := EntryCalls(entry, geolocation, index);
    match EntryMatch(entry, geolocation, index)
    case None =>
      assert group[..0] == [];
    case Some(m) =>
      assert |group| == 2 && group[1].ids == [m];
      assert group[..1] == [group[0]] && group[..1][..0] == [];
      assert DeletedIds(group[..1]) == {};
      assert (set x | x in [m]) == {m};
  }

  /**
   * The ids `execute()` remembers are exactly the ids it deletes at once:
   * a message is remembered if and only if it is deleted.
   */
  lemma {:induction false} RememberedAreDeleted(entries: seq<Entry>, geolocation: string,
                                                observed: seq<seq<DialogMessage>>, n: nat)
    requires |observed| == |entries| && n <= |entries|
    ensures DeletedIds(SentUpTo(entries, geolocation, observed, n)) == MatchedUpTo(entries, geolocation, observed, n)
  {
    if n > 0 {
      RememberedAreDeleted(entries, geolocation, observed, n - 1);
      DeletedIdsAppend(SentUpTo(entries, geolocation, observed, n - 1), EntryCalls(entries[n - 1], geolocation, observed[n - 1]));
      EntryDeletes(entries[n - 1], geolocation, observed[n - 1]);
    }
  }

  /** The id an entry remembers stays remembered through the rest of the loop. */
  lemma {:induction false} MatchedIdsContain(entries: seq<Entry>, geolocation: string,
                                             observed: seq<seq<DialogMessage>>, i: nat, n: nat)
    requires |observed| == |entries| && i < n <= |entries|
    requires EntryMatch(entries[i], geolocation, observed[i]).Some?
    ensures EntryMatch(entries[i], geolocation, observed[i]).value in MatchedUpTo(entries, geolocation, observed, n)
  {
    if i < n - 1 {
      MatchedIdsContain(entries, geolocation, observed, i, n - 1);
    }
  }

  /** An id is remembered by the first `n` rounds exactly when one of those rounds found it. */
  lemma {:induction false} MatchedUpToMembers(entries: seq<Entry>, geolocation: string,
                                              observed: seq<seq<DialogMessage>>, n: nat, x: Int32)
    requires |observed| == |entries| && n <= |entries|
    ensures x in MatchedUpTo(entries, geolocation, observed, n) <==>
      exists i :: 0 <= i < n && EntryMatch(entries[i], geolocation, observed[i]) == Some(x)
  {
    if n > 0 {
      MatchedUpToMembers(entries, geolocation, observed, n - 1, x);
      if EntryMatch(entries[n - 1], geolocation, observed[n - 1]) == Some(x) {
        assert x in MatchedUpTo(entries, geolocation, observed, n);
      }
    }
  }

  /**
   * After `execute()` has added its ids to the remembered ones, a
   * confirmation deletes something if and only if it carries a message and
   * its old id was remembered before or was found by one of the scans; what
   * it deletes is then the confirmed message, in its (truncated) dialog.
   */
  lemma ConfirmationAfterExecute(pending: set<Int32>, entries: seq<Entry>, geolocation: string,
                                 observed: seq<seq<DialogMessage>>, oldId: Int32, message: Option<ServerMessage>)
    requires |observed| == |entries|
    ensures var r := ConfirmationCalls(pending + MatchedIds(entries, geolocation, observed), oldId, message);
      && (r != [] <==>
            (message.Some? &&
             (oldId in pending ||
              exists i :: 0 <= i < |entries| && EntryMatch(entries[i], geolocation, observed[i]) == Some(oldId))))
      && (r != [] ==> r == [DeleteMessageCall(LongToInt(message.value.dialogId), message.value.id)])
  {
    MatchedUpToMembers(entries, geolocation, observed, |entries|, oldId);
  }

  /**
   * A server confirmation for a message `execute()` remembered gets the
   * confirmed message deleted, in the dialog the confirmation names.
   */
  lemma ConfirmedDecoyIsDeleted(pending: set<Int32>, entries: seq<Entry>, geolocation: string,
                                observed: seq<seq<DialogMessage>>, i: nat, msg: ServerMessage)
    requires |observed| == |entries| && i < |entries|
    requires EntryMatch(entries[i], geolocation, observed[i]).Some?
    ensures ConfirmationCalls(pending + MatchedIds(entries, geolocation, observed),
                              EntryMatch(entries[i], geolocation, observed[i]).value, Some(msg))
         == [DeleteMessageCall(LongToInt(msg.dialogId), msg.id)]
  {
    MatchedIdsContain(entries, geolocation, observed, i, |entries|);
  }

  /**
   * The scan looks at every dialog, not the target's: a message with the
   * same text cached for another dialog is picked, and its id is then
   * deleted in the target's dialog.
   */
  lemma MatchInAnotherDialog()
    ensures var entry := Entry(42, "hi", false);
      var index := [DialogMessage(7, 5, Some("hi")), DialogMessage(42, 99, Some("hi"))];
      EntryCalls(entry, "", index) == [SendMessage("hi", 42), DeleteMessages([5], 42, 0)]
  {
    var index := [DialogMessage(7, 5, Some("hi")), DialogMessage(42, 99, Some("hi"))];
    assert Matches(index[0], "hi");
    assert FirstMatch(index, "hi") == Some(0);
  }

  /**
   * One entry "hi" to peer 42 whose scan finds local message 99: the send,
   * the immediate deletion of 99 in dialog 42, one save; 99 is remembered, and
   * its server confirmation as message 777 of dialog 42 deletes 777 there.
   */
  lemma ConfirmedDecoy()
    ensures var entries := [Entry(42, "hi", false)];
      var observed := [[DialogMessage(42, 99, Some("hi"))]];
      && ExecuteCalls(entries, "", observed) ==
           [Subscribe, SendMessage("hi", 42), DeleteMessages([99], 42, 0), SaveConfig]
      && MatchedIds(entries, "", observed) == {99}
      && ConfirmationCalls({99}, 99, Some(ServerMessage(777, 42))) == [DeleteMessages([777], 42, 0)]
  {
    var entry := Entry(42, "hi", false);
    var index := [DialogMessage(42, 99, Some("hi"))];
    assert Matches(index[0], "hi");
    assert FirstMatch(index, "hi") == Some(0);
    assert EntryCalls(entry, "", index) == [SendMessage("hi", 42), DeleteMessages([99], 42, 0)];
  }

  class TelegramMessageAction {
    var accountNum: Int32
    var chatsToSendingMessages: seq<Entry>
    var oldMessageIds: set<Int32>

    constructor ()
      ensures accountNum == 0 && chatsToSendingMessages == [] && oldMessageIds == {}
    {
      accountNum := 0;
      chatsToSendingMessages := [];
      oldMessageIds := {};
    }

    /**
     * `execute()`. The location string is read once, before the loop;
     * `observed[i]` is the controller's `dialogMessage` index as the scan
     * sees it right after the i-th send. Returns the calls issued, in order.
     */
    method Execute(geolocation: string, observed: seq<seq<DialogMessage>>) returns (calls: seq<Call>)
      requires |observed| == |chatsToSendingMessages|
      modifies this`oldMessageIds
      ensures calls == ExecuteCalls(chatsToSendingMessages, geolocation, observed)
      ensures oldMessageIds == old(oldMessageIds) + MatchedIds(chatsToSendingMessages, geolocation, observed)
    {
      if chatsToSendingMessages == [] {
        return [];
      }
      var entries := chatsToSendingMessages;
      ghost var remembered := oldMessageIds;
      calls := [Subscribe];
      var sent := [];
      var i := 0;
      while i < |entries|
        invariant 0 <= i <= |entries|
        invariant sent == SentUpTo(entries, geolocation, observed, i)
        invariant oldMessageIds == remembered + MatchedUpTo(entries, geolocation, observed, i)
      {
        var group, matched := SendEntry(entries[i], geolocation, observed[i]);
        sent := sent + group;
        if matched.Some? {
          oldMessageIds := oldMessageIds + {matched.value};
        }
        i := i + 1;
      }
      calls := calls + sent + [SaveConfig];
    }

    /**
     * `didReceivedNotification` for `messageReceivedByServer`, with the old
     * local id and the confirmed message it carries. It reads the remembered
     * ids and changes nothing, so the same confirmation twice deletes twice.
     */
    method DidReceivedNotification(oldId: Int32, message: Option<ServerMessage>) returns (calls: seq<Call>)
      ensures calls == ConfirmationCalls(oldMessageIds, oldId, message)
    {
      if message.None? || oldId !in oldMessageIds {
        return [];
      }
      calls := [DeleteMessageCall(LongToInt(message.value.dialogId), message.value.id)];
    }
  }

  /**
   * One round of the loop of `execute()`: send the composed text, scan the
   * index for it and, on a hit, delete the message found. Returns the calls
   * of the round and the local id to remember.
   */
  method SendEntry(entry: Entry, geolocation: string, index: seq<DialogMessage>)
    returns (group: seq<Call>, matched: Option<Int32>)
    ensures group == EntryCalls(entry, geolocation, index)
    ensures matched == EntryMatch(entry, geolocation, index)
  {
    var text := ComposeText(entry, geolocation);
    group := [SendMessage(text, entry.userId)];
    var msg := ScanDialogMessages(index, text);
    matched := None;
    if msg.Some? {
      matched := Some(msg.value.id);
      group := group + [DeleteMessageCall(entry.userId, msg.value.id)];
    }
  }

  /** The inner loop of `execute()`: the first cached dialog message whose text equals `text`. */
  method ScanDialogMessages(index: seq<DialogMessage>, text: string) returns (msg: Option<DialogMessage>)
    ensures msg == MatchOf(index, text)
  {
    FirstMatchIsFirst(index, text);
    msg := None;
    for i := 0 to |index|
      invariant forall j :: 0 <= j < i ==> !Matches(index[j], text)
    {
      if index[i].messageText.Some? && text == index[i].messageText.value {
        msg := Some(index[i]);
        break;
      }
    }
  }
}
