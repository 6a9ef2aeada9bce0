/**
 * `RemoveChatsAction`: the batch chat wipe. Each configured id is resolved by
 * its sign (positive: a user; otherwise the chat cached under `-id`) and the
 * matching calls are issued in list order; then the list empties itself and
 * the configuration is saved.
 */
module RemoveChats {
  import opened Ints
  import opened Messenger

  /** The chat an id names: never one for a positive id, else the chat cached under `-id`. */
  function ChatOf(id: Int32, account: Account): Option<Chat>
  {
    if id > 0 then None else account.GetChat(Negate32(id))
  }

  /** The id names a chat the account is still in: the action leaves that chat. */
  predicate LeavesChat(id: Int32, account: Account)
  {
    ChatOf(id, account).Some? && !ChatOf(id, account).value.notInChat
  }

  /** The id names a cached user that is a bot and not a support account: the action blocks it. */
  predicate BlocksBot(id: Int32, account: Account)
  {
    id > 0 && account.GetUser(id).Some? && account.GetUser(id).value.bot && !account.GetUser(id).value.isSupport
  }

  /** The user record of the account itself, passed when leaving a chat (null when not cached). */
  function CurrentUser(account: Account): Option<User>
  {
    account.GetUser(account.clientUserId)
  }

  /** The lookup the sign of an id picks. */
  function Lookup(id: Int32): Call
  {
    if id > 0 then GetUser(id) else GetChat(Negate32(id))
  }

  /** The group of calls the action issues for one configured id. */
  function RemoveCalls(id: Int32, account: Account): seq<Call>
  {
    var user := if id > 0 then account.GetUser(id) else None;
    var chat := ChatOf(id, account);
    [Lookup(id)] +
    if chat.Some? then
      if chat.value.notInChat then [DeleteDialog(id)]
      else [GetUser(account.clientUserId), DeleteUserFromChat(Negate32(id), CurrentUser(account))]
    else
      [DeleteDialog(id)] + (if user.Some? && user.value.bot && !user.value.isSupport then [BlockPeer(id)] else [])
  }

  /** The group of one id is one of three shapes: leave the chat, or drop the dialog and maybe block. */
  lemma RemoveCallsShape(id: Int32, account: Account)
    ensures LeavesChat(id, account) ==>
      RemoveCalls(id, account) == [Lookup(id), GetUser(account.clientUserId), DeleteUserFromChat(Negate32(id), CurrentUser(account))]
    ensures !LeavesChat(id, account) && BlocksBot(id, account) ==>
      RemoveCalls(id, account) == [Lookup(id), DeleteDialog(id), BlockPeer(id)]
    ensures !LeavesChat(id, account) && !BlocksBot(id, account) ==>
      RemoveCalls(id, account) == [Lookup(id), DeleteDialog(id)]
  {
  }

  /** The sign decides the first lookup; users are looked up only for the id itself or the account's own user. */
  lemma RemoveCallsLookups(id: Int32, account: Account)
    ensures |RemoveCalls(id, account)| >= 2
    ensures RemoveCalls(id, account)[0] == if id > 0 then GetUser(id) else GetChat(Negate32(id))
    ensures forall k :: GetChat(k) in RemoveCalls(id, account) <==> id <= 0 && k == Negate32(id)
    ensures forall u :: GetUser(u) in RemoveCalls(id, account) ==>
      (id > 0 && u == id) || (LeavesChat(id, account) && u == account.clientUserId)
  {
    RemoveCallsShape(id, account);
    if id > 0 {
      assert !LeavesChat(id, account);
    }
  }

  /** A chat still joined is left with the account's own user; everything else is dropped as a dialog. */
  lemma RemoveCallsRemovals(id: Int32, account: Account)
    ensures forall d :: DeleteDialog(d) in RemoveCalls(id, account) <==> d == id && !LeavesChat(id, account)
    ensures forall k, u :: DeleteUserFromChat(k, u) in RemoveCalls(id, account) <==>
      k == Negate32(id) && u == CurrentUser(account) && LeavesChat(id, account)
  {
    RemoveCallsShape(id, account);
  }

  /** Only a non-support bot is blocked, and right after its dialog is dropped. */
  lemma RemoveCallsBlocks(id: Int32, account: Account)
    ensures forall p :: BlockPeer(p) in RemoveCalls(id, account) <==> p == id && BlocksBot(id, account)
    ensures BlocksBot(id, account) ==>
      RemoveCalls(id, account)[|RemoveCalls(id, account)| - 2..] == [DeleteDialog(id), BlockPeer(id)]
  {
    RemoveCallsShape(id, account);
    if BlocksBot(id, account) {
      assert !LeavesChat(id, account);
    }
  }

  /** A group neither subscribes, saves, sends nor deletes messages. */
  lemma RemoveCallsNothingElse(id: Int32, account: Account)
    ensures Subscribe !in RemoveCalls(id, account) && SaveConfig !in RemoveCalls(id, account)
    ensures forall c | c in RemoveCalls(id, account) :: !c.SendMessage? && !c.DeleteMessages?
  {
    RemoveCallsShape(id, account);
  }

  /** The call groups of a list, one per element, in list order. */
  function Groups(ids: seq<Int32>, account: Account): seq<seq<Call>>
  {
    seq(|ids|, i requires 0 <= i < |ids| => RemoveCalls(ids[i], account))
  }

  /** The calls of the loop over a whole list. */
  function ProcessAll(ids: seq<Int32>, account: Account): seq<Call>
  {
    Concat(Groups(ids, account))
  }

  /** Everything `execute()` issues: nothing for an empty list, else the groups and one save. */
  function ExecuteCalls(ids: seq<Int32>, account: Account): (r: seq<Call>)
    ensures ids == [] <==> r == []
    ensures ids != [] ==> r[|r| - 1] == SaveConfig && SaveConfig !in r[..|r| - 1]
    ensures ids != [] ==> r[..|r| - 1] == ProcessAll(ids, account)
  {
    if ids == [] then []
    else
      NoSaveBeforeTheEnd(ids, account);
      var r := ProcessAll(ids, account) + [SaveConfig];
      assert r[..|r| - 1] == ProcessAll(ids, account);
      r
  }

  /** A call is in the loop's trace exactly when it is in the group of some listed id. */
  lemma InProcessAll(c: Call, ids: seq<Int32>, account: Account)
    ensures c in ProcessAll(ids, account) <==> exists id :: id in ids && c in RemoveCalls(id, account)
  {
    var groups := Groups(ids, account);
    InConcat(c, groups);
    if c in ProcessAll(ids, account) {
      var i :| 0 <= i < |groups| && c in groups[i];
      assert ids[i] in ids;
    }
    if exists id :: id in ids && c in RemoveCalls(id, account) {
      var id :| id in ids && c in RemoveCalls(id, account);
      var i :| 0 <= i < |ids| && ids[i] == id;
      assert c in groups[i];
    }
  }

  lemma NoSaveBeforeTheEnd(ids: seq<Int32>, account: Account)
    ensures SaveConfig !in ProcessAll(ids, account)
  {
    InProcessAll(SaveConfig, ids, account);
    forall id ensures SaveConfig !in RemoveCalls(id, account) {
      RemoveCallsNothingElse(id, account);
    }
  }

  /** The loop over the first `i + 1` ids extends the loop over the first `i` by the group of `ids[i]`. */
  lemma ProcessAllStep(ids: seq<Int32>, i: nat, account: Account)
    requires i < |ids|
    ensures ProcessAll(ids[..i + 1], account) == ProcessAll(ids[..i], account) + RemoveCalls(ids[i], account)
  {
    assert Groups(ids[..i + 1], account) == Groups(ids[..i], account) + [RemoveCalls(ids[i], account)];
    ConcatStep(Groups(ids[..i], account), RemoveCalls(ids[i], account));
  }

  lemma ProcessAllAppend(a: seq<Int32>, b: seq<Int32>, account: Account)
    ensures ProcessAll(a + b, account) == ProcessAll(a, account) + ProcessAll(b, account)
  {
    assert Groups(a + b, account) == Groups(a, account) + Groups(b, account);
    ConcatAppend(Groups(a, account), Groups(b, account));
  }

  /**
   * Elements are handled one after the other: the trace is the groups of the
   * elements before `i`, then the group of `ids[i]`, then those after it. A
   * duplicate id therefore gets its group twice.
   */
  lemma ProcessedInOrder(ids: seq<Int32>, i: nat, account: Account)
    requires i < |ids|
    ensures ProcessAll(ids, account) ==
      ProcessAll(ids[..i], account) + RemoveCalls(ids[i], account) + ProcessAll(ids[i + 1..], account)
  {
    var groups := Groups(ids, account);
    ConcatSplit(groups, i);
    assert groups[..i] == Groups(ids[..i], account);
    assert groups[i + 1..] == Groups(ids[i + 1..], account);
  }

  /** A dialog is dropped exactly for the listed ids that do not name a chat still joined. */
  lemma DroppedDialogs(ids: seq<Int32>, account: Account, d: Int32)
    ensures DeleteDialog(d) in ProcessAll(ids, account) <==> d in ids && !LeavesChat(d, account)
  {
    InProcessAll(DeleteDialog(d), ids, account);
    forall id ensures DeleteDialog(d) in RemoveCalls(id, account) <==> d == id && !LeavesChat(id, account) {
      RemoveCallsRemovals(id, account);
    }
  }

  /** A chat is left exactly for the listed ids naming a chat still joined, with the account's own user. */
  lemma LeftChats(ids: seq<Int32>, account: Account, k: Int32, u: Option<User>)
    ensures DeleteUserFromChat(k, u) in ProcessAll(ids, account) <==>
      Negate32(k) in ids && LeavesChat(Negate32(k), account) && u == CurrentUser(account)
  {
    InProcessAll(DeleteUserFromChat(k, u), ids, account);
    Negate32Involution(k);
    forall id ensures DeleteUserFromChat(k, u) in RemoveCalls(id, account) <==>
      id == Negate32(k) && u == CurrentUser(account) && LeavesChat(id, account)
    {
      RemoveCallsRemovals(id, account);
      Negate32Involution(id);
    }
  }

  /** Exactly the listed non-support bots are blocked; a non-positive id never is. */
  lemma BlockedPeers(ids: seq<Int32>, account: Account, p: Int32)
    ensures BlockPeer(p) in ProcessAll(ids, account) <==> p in ids && BlocksBot(p, account)
    ensures p <= 0 ==> BlockPeer(p) !in ProcessAll(ids, account)
  {
    InProcessAll(BlockPeer(p), ids, account);
    forall id ensures BlockPeer(p) in RemoveCalls(id, account) <==> p == id && BlocksBot(id, account) {
      RemoveCallsBlocks(id, account);
    }
  }

  /** Chats are looked up only for non-positive listed ids, under the key `-id`. */
  lemma ChatLookups(ids: seq<Int32>, account: Account, k: Int32)
    ensures GetChat(k) in ProcessAll(ids, account) <==> Negate32(k) in ids && Negate32(k) <= 0
  {
    InProcessAll(GetChat(k), ids, account);
    Negate32Involution(k);
    forall id ensures GetChat(k) in RemoveCalls(id, account) <==> id == Negate32(k) && id <= 0 {
      RemoveCallsLookups(id, account);
      Negate32Involution(id);
    }
  }

  /** Users are looked up only for positive listed ids, and for the account itself when leaving a chat. */
  lemma UserLookups(ids: seq<Int32>, account: Account, u: Int32)
    requires GetUser(u) in ProcessAll(ids, account)
    ensures (u > 0 && u in ids) || u == account.clientUserId
  {
    InProcessAll(GetUser(u), ids, account);
    var id :| id in ids && GetUser(u) in RemoveCalls(id, account);
    RemoveCallsLookups(id, account);
  }

  /**
   * A left group and a bot: with chat 5 cached as one the account is not in
   * and user 7 a non-support bot, the list `[-5, 7]` drops both dialogs and
   * blocks the bot, each after its lookup, and saves once.
   */
  lemma LeftGroupAndBot()
    ensures var account := Account(map[7 := User(7, true, false)], map[5 := Chat(5, true)], 1);
      ExecuteCalls([-5, 7], account) ==
        [GetChat(5), DeleteDialog(-5), GetUser(7), DeleteDialog(7), BlockPeer(7), SaveConfig]
  {
    var account := Account(map[7 := User(7, true, false)], map[5 := Chat(5, true)], 1);
    var ids: seq<Int32> := [-5, 7];
    assert RemoveCalls(-5, account) == [GetChat(5), DeleteDialog(-5)];
    assert RemoveCalls(7, account) == [GetUser(7), DeleteDialog(7), BlockPeer(7)];
    ProcessAllAppend([-5], [7], account);
    assert ids == [-5] + [7];
    assert Groups([-5], account) == [RemoveCalls(-5, account)];
    assert Groups([7], account) == [RemoveCalls(7, account)];
    assert Concat([RemoveCalls(-5, account)]) == Concat([]) + RemoveCalls(-5, account);
    assert Concat([RemoveCalls(7, account)]) == Concat([]) + RemoveCalls(7, account);
  }

  class RemoveChatsAction {
    var chatsToRemove: seq<Int32>
    var accountNum: Int32

    constructor ()
      ensures chatsToRemove == [] && accountNum == 0
    {
      chatsToRemove := [];
      accountNum := 0;
    }

    constructor Init(accountNum: Int32, chatsToRemove: seq<Int32>)
      ensures this.chatsToRemove == chatsToRemove && this.accountNum == accountNum
    {
      this.accountNum := accountNum;
      this.chatsToRemove := chatsToRemove;
    }

    /**
     * `execute()` against the account numbered `accountNum`, whose cached
     * state is `account`. Returns the calls it issues, in order.
     */
    method Execute(account: Account) returns (calls: seq<Call>)
      modifies this`chatsToRemove
      ensures calls == ExecuteCalls(old(chatsToRemove), account)
      ensures chatsToRemove == []
    {
      if chatsToRemove == [] {
        return [];
      }
      var ids := chatsToRemove;
      calls := [];
      var i := 0;
      while i < |ids|
        invariant 0 <= i <= |ids|
        invariant calls == ProcessAll(ids[..i], account)
      {
        ghost var callsBefore := calls;
        var id := ids[i];
        var chat: Option<Chat>;
        var user: Option<User> := None;
        if id > 0 {
          calls := calls + [GetUser(id)];
          user := account.GetUser(id);
          chat := None;
        } else {
          calls := calls + [GetChat(Negate32(id))];
          chat := account.GetChat(Negate32(id));
        }
        if chat.Some? {
          if chat.value.notInChat {
            calls := calls + [DeleteDialog(id)];
          } else {
            calls := calls + [GetUser(account.clientUserId)];
            var currentUser := account.GetUser(account.clientUserId);
            calls := calls + [DeleteUserFromChat(Negate32(id), currentUser)];
          }
        } else {
          calls := calls + [DeleteDialog(id)];
          var isBot := user.Some? && user.value.bot && !user.value.isSupport;
          if isBot {
            calls := calls + [BlockPeer(id)];
          }
        }
        assert calls == callsBefore + RemoveCalls(id, account);
        ProcessAllStep(ids, i, account);
        i := i + 1;
      }
      assert ids[..i] == ids;
      chatsToRemove := [];
      calls := calls + [SaveConfig];
    }
  }
}
