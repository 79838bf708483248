/**
 * The web client's `useUserStatus` hook: a map from user id to the last known online flag, replaced
 * by an updated copy on every change. A missing JavaScript property is a missing map key; a falsy
 * id is the empty string.
 */
module FrontendUserStatus {
  import opened Wrappers

  /** One contact of an `initializeStatuses` call: the id it is filed under and its `isOnline`, if defined. */
  datatype StatusEntry = StatusEntry(key: string, isOnline: Option<bool>)

  /** A `USER_STATUS_UPDATE` push; `userId` is "" when absent. */
  datatype StatusPush = StatusPush(userId: string, isOnline: bool)

  /** Whether the entry is taken into `newStatuses`: it has an id and a defined flag. */
  predicate Usable(e: StatusEntry)
  {
    e.key != "" && e.isOnline.Some?
  }

  /** The `newStatuses` object built by `initializeStatuses`: later entries overwrite earlier ones. */
  function Statuses(entries: seq<StatusEntry>): (r: map<string, bool>)
    ensures "" !in r
  {
    if entries == [] then map[]
    else
      var last := entries[|entries| - 1];
      var init := Statuses(entries[..|entries| - 1]);
      if Usable(last) then init[last.key := last.isOnline.value] else init
  }

  /** The keys of `newStatuses` are exactly the ids of the usable entries. */
  lemma {:induction false} StatusesKeys(entries: seq<StatusEntry>)
    ensures forall k :: k in Statuses(entries) <==> exists i :: 0 <= i < |entries| && Usable(entries[i]) && entries[i].key == k
  {
    if entries != [] {
      var init := entries[..|entries| - 1];
      StatusesKeys(init);
      assert forall i :: 0 <= i < |init| ==> init[i] == entries[i];
    }
  }

  /** The flag filed under an id is that of the last usable entry with the id. */
  lemma {:induction false} StatusesLastWins(entries: seq<StatusEntry>, i: nat)
    requires i < |entries| && Usable(entries[i])
    requires forall j :: i < j < |entries| ==> !(Usable(entries[j]) && entries[j].key == entries[i].key)
    ensures entries[i].key in Statuses(entries) && Statuses(entries)[entries[i].key] == entries[i].isOnline.value
  {
    var init := entries[..|entries| - 1];
    if i < |entries| - 1 {
      assert forall j :: i < j < |init| ==> init[j] == entries[j];
      StatusesLastWins(init, i);
    }
  }

  /** `isUserOnline`: the stored flag when there is one, else the caller's default. */
  function IsUserOnline(onlineUsers: map<string, bool>, userId: string, defaultStatus: bool): (online: bool)
    ensures userId in onlineUsers ==> online == onlineUsers[userId]
    ensures userId !in onlineUsers ==> online == defaultStatus
  {
    if userId in onlineUsers then onlineUsers[userId] else defaultStatus
  }

  /** `setUserStatus`: a falsy id changes nothing; otherwise only that id's flag is set. */
  function SetUserStatus(onlineUsers: map<string, bool>, userId: string, isOnline: bool): (r: map<string, bool>)
    ensures userId == "" ==> r == onlineUsers
    ensures userId != "" ==> r.Keys == onlineUsers.Keys + {userId}
  {
    if userId == "" then onlineUsers else onlineUsers[userId := isOnline]
  }

  /** Reading after a set: the set id reads the new flag, every other id reads what it read before. */
  lemma SetThenRead(onlineUsers: map<string, bool>, userId: string, isOnline: bool, other: string, defaultStatus: bool)
    requires userId != ""
    ensures IsUserOnline(SetUserStatus(onlineUsers, userId, isOnline), userId, defaultStatus) == isOnline
    ensures other != userId ==>
      IsUserOnline(SetUserStatus(onlineUsers, userId, isOnline), other, defaultStatus) == IsUserOnline(onlineUsers, other, defaultStatus)
  {
  }

  /** `clearUserStatus`: a falsy id changes nothing; otherwise the user reads offline whatever the default. */
  function ClearUserStatus(onlineUsers: map<string, bool>, userId: string): (r: map<string, bool>)
    ensures userId == "" ==> r == onlineUsers
    ensures userId != "" ==> forall d :: !IsUserOnline(r, userId, d)
    ensures forall v, d :: v != userId ==> IsUserOnline(r, v, d) == IsUserOnline(onlineUsers, v, d)
  {
    SetUserStatus(onlineUsers, userId, false)
  }

  /** The `USER_STATUS_UPDATE` subscriber: a push with a user id sets that user's flag. */
  function OnStatusUpdate(onlineUsers: map<string, bool>, payload: Option<StatusPush>): (r: map<string, bool>)
    ensures payload.None? || payload.value.userId == "" ==> r == onlineUsers
    ensures payload.Some? && payload.value.userId != "" ==>
      IsUserOnline(r, payload.value.userId, !payload.value.isOnline) == payload.value.isOnline &&
      forall v :: v != payload.value.userId ==> (v in r <==> v in onlineUsers)
  {
    match payload
    case None => onlineUsers
    case Some(p) => SetUserStatus(onlineUsers, p.userId, p.isOnline)
  }

  /**
   * `initializeStatuses`: no list changes nothing; otherwise the usable entries, keyed by
   * `contactId`, are collected and laid over the current map.
   */
  method InitializeStatuses(onlineUsers: map<string, bool>, contacts: Option<seq<StatusEntry>>) returns (r: map<string, bool>)
    ensures contacts.None? ==> r == onlineUsers
    ensures contacts.Some? ==> r == onlineUsers + Statuses(contacts.value)
  {
    if contacts.None? {
      return onlineUsers;
    }
    var list := contacts.value;
    var newStatuses: map<string, bool> := map[];
    var i := 0;
    while i < |list|
      invariant 0 <= i <= |list|
      invariant newStatuses == Statuses(list[..i])
    {
      assert list[..i + 1][..i] == list[..i];
      if list[i].key != "" && list[i].isOnline.Some? {
        newStatuses := newStatuses[list[i].key := list[i].isOnline.value];
      }
      i := i + 1;
    }
    assert list[..|list|] == list;
    r := onlineUsers + newStatuses;
  }

  /** After initialization an id keeps its old flag unless some usable entry carries it. */
  lemma InitializeKeepsOthers(onlineUsers: map<string, bool>, entries: seq<StatusEntry>, userId: string, d: bool)
    requires forall i :: 0 <= i < |entries| ==> !(Usable(entries[i]) && entries[i].key == userId)
    ensures IsUserOnline(onlineUsers + Statuses(entries), userId, d) == IsUserOnline(onlineUsers, userId, d)
  {
    StatusesKeys(entries);
  }
}
