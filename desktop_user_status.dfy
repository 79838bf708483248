/**
 * The desktop client's `UserStatusService`: the online map, the listener set, and the per-user
 * notification history that keeps status toasts for one user at least a cooldown apart. Each
 * listener call is recorded as a `Notice` (who was called, with which map); each toast as a
 * `StatusToast`. The clock and the display-name lookup (which reads the chat contacts) are
 * parameters.
 */
module DesktopUserStatus {
  import opened Wrappers
  import FrontendUserStatus

  /** Milliseconds between two status toasts for the same user. */
  const Cooldown := 5000

  /** One round of `notifyListeners`: every listener in the set received that map. */
  datatype Notice = Notice(listeners: set<nat>, onlineUsers: map<string, bool>)

  /** One `showToast` call. */
  datatype StatusToast = StatusToast(text: string, kind: string, duration: int)

  /** The toast text and type for a status change. */
  function ToastFor(name: string, isOnline: bool): (t: StatusToast)
    ensures t.duration == 4000
    ensures isOnline <==> t.kind == "success"
  {
    if isOnline then StatusToast(name + " came online", "success", 4000)
    else StatusToast(name + " went offline", "info", 4000)
  }

  /** Whether a toast for the user at `now` falls inside the cooldown (a stored 0 counts as none, as it is falsy). */
  predicate Suppressed(recent: map<string, int>, userId: string, now: int)
  {
    userId in recent && recent[userId] != 0 && now - recent[userId] < Cooldown
  }

  /** The history after `cleanupNotificationHistory` at `now`: the entries at most a cooldown old. */
  function Pruned(recent: map<string, int>, now: int): (r: map<string, int>)
    ensures r.Keys <= recent.Keys
    ensures forall u :: u in r ==> r[u] == recent[u] && now - r[u] <= Cooldown
    ensures forall u :: u in recent && now - recent[u] <= Cooldown ==> u in r
  {
    map u | u in recent && now - recent[u] <= Cooldown :: recent[u]
  }

  /** Cleanups at successive clock readings. */
  function PrunedAt(recent: map<string, int>, times: seq<int>): (r: map<string, int>)
    ensures r.Keys <= recent.Keys
  {
    if times == [] then recent else PrunedAt(Pruned(recent, times[0]), times[1..])
  }

  /**
   * The cooldown holds across cleanups: after a toast for `userId` at `shown` (not 0), a toast
   * request at `now` less than a cooldown later is suppressed, whatever cleanups ran in between.
   */
  lemma {:induction false} CooldownSurvivesCleanups(recent: map<string, int>, userId: string, shown: int, times: seq<int>, now: int)
    requires userId in recent && recent[userId] == shown && shown != 0
    requires now - shown < Cooldown
    requires forall i :: 0 <= i < |times| ==> times[i] <= now
    ensures Suppressed(PrunedAt(recent, times), userId, now)
  {
    if times != [] {
      var next := Pruned(recent, times[0]);
      assert userId in next && next[userId] == shown;
      assert forall i :: 0 <= i < |times[1..]| ==> times[1..][i] == times[i + 1];
      CooldownSurvivesCleanups(next, userId, shown, times[1..], now);
    }
  }

  /** Whether the push repeats the stored flag (`previousStatus === isOnline`). */
  predicate SameFlag(onlineUsers: map<string, bool>, p: FrontendUserStatus.StatusPush)
  {
    p.userId in onlineUsers && onlineUsers[p.userId] == p.isOnline
  }

  class UserStatusService {
    var onlineUsers: map<string, bool>
    var listeners: set<nat>
    var initialized: bool
    /** Whether the `USER_STATUS_UPDATE` subscription is held. */
    var subscribed: bool
    var recentNotifications: map<string, int>
    var notices: seq<Notice>
    var toasts: seq<StatusToast>

    constructor()
      ensures onlineUsers == map[] && listeners == {} && !initialized && !subscribed
      ensures recentNotifications == map[] && notices == [] && toasts == []
    {
      onlineUsers, listeners, initialized, subscribed := map[], {}, false, false;
      recentNotifications, notices, toasts := map[], [], [];
    }

    /** `init`: subscribes once. */
    method Init()
      modifies this
      ensures initialized && subscribed == (old(subscribed) || !old(initialized))
      ensures onlineUsers == old(onlineUsers) && listeners == old(listeners) && recentNotifications == old(recentNotifications)
      ensures notices == old(notices) && toasts == old(toasts)
    {
      if initialized {
        return;
      }
      subscribed := true;
      initialized := true;
    }

    /** `notifyListeners`: every listener receives the current map. */
    method NotifyListeners()
      modifies this
      ensures notices == old(notices) + [Notice(listeners, onlineUsers)]
      ensures onlineUsers == old(onlineUsers) && listeners == old(listeners) && recentNotifications == old(recentNotifications)
      ensures toasts == old(toasts) && initialized == old(initialized) && subscribed == old(subscribed)
    {
      notices := notices + [Notice(listeners, onlineUsers)];
    }

    /** `setUserStatus`: a falsy id is ignored; listeners hear of it only when the stored flag changed. */
    method SetUserStatus(userId: string, isOnline: bool)
      modifies this
      ensures onlineUsers == FrontendUserStatus.SetUserStatus(old(onlineUsers), userId, isOnline)
      ensures notices == (if userId != "" && (userId !in old(onlineUsers) || old(onlineUsers)[userId] != isOnline)
        then old(notices) + [Notice(listeners, onlineUsers)] else old(notices))
      ensures listeners == old(listeners) && recentNotifications == old(recentNotifications)
      ensures toasts == old(toasts) && initialized == old(initialized) && subscribed == old(subscribed)
    {
      if userId == "" {
        return;
      }
      var changed := !(userId in onlineUsers && onlineUsers[userId] == isOnline);
      onlineUsers := onlineUsers[userId := isOnline];
      if changed {
        NotifyListeners();
      }
    }

    /** `isUserOnline`: a falsy id, or one without a stored flag, reads the default. */
    function IsUserOnline(userId: string, defaultStatus: bool): (online: bool)
      reads this
      ensures userId != "" && userId in onlineUsers ==> online == onlineUsers[userId]
      ensures userId == "" || userId !in onlineUsers ==> online == defaultStatus
    {
      if userId == "" then defaultStatus else FrontendUserStatus.IsUserOnline(onlineUsers, userId, defaultStatus)
    }

    /** `cleanupNotificationHistory`: every entry more than a cooldown old is deleted. */
    method CleanupNotificationHistory(now: int)
      modifies this
      ensures recentNotifications == Pruned(old(recentNotifications), now)
      ensures onlineUsers == old(onlineUsers) && listeners == old(listeners) && notices == old(notices)
      ensures toasts == old(toasts) && initialized == old(initialized) && subscribed == old(subscribed)
    {
      ghost var start := recentNotifications;
      var pending := recentNotifications.Keys;
      while pending != {}
        invariant pending <= start.Keys
        invariant recentNotifications == map u | u in start && (u in pending || now - start[u] <= Cooldown) :: start[u]
        invariant onlineUsers == old(onlineUsers) && listeners == old(listeners) && notices == old(notices)
        invariant toasts == old(toasts) && initialized == old(initialized) && subscribed == old(subscribed)
        decreases pending
      {
        var u :| u in pending;
        if now - recentNotifications[u] > Cooldown {
          recentNotifications := recentNotifications - {u};
        }
        pending := pending - {u};
      }
    }

    /**
     * `showStatusNotification`: inside the cooldown nothing happens; otherwise the toast is
     * shown, the time is recorded and the history is cleaned.
     */
    method ShowStatusNotification(userId: string, isOnline: bool, name: string, now: int)
      modifies this
      ensures Suppressed(old(recentNotifications), userId, now) ==>
        toasts == old(toasts) && recentNotifications == old(recentNotifications)
      ensures !Suppressed(old(recentNotifications), userId, now) ==>
        toasts == old(toasts) + [ToastFor(name, isOnline)] &&
        recentNotifications == Pruned(old(recentNotifications)[userId := now], now)
      ensures onlineUsers == old(onlineUsers) && listeners == old(listeners) && notices == old(notices)
      ensures initialized == old(initialized) && subscribed == old(subscribed)
    {
      if userId in recentNotifications && recentNotifications[userId] != 0 && now - recentNotifications[userId] < Cooldown {
        return;
      }
      toasts := toasts + [ToastFor(name, isOnline)];
      recentNotifications := recentNotifications[userId := now];
      CleanupNotificationHistory(now);
    }

    /**
     * `handleUserStatusUpdate`: a push without a user id, or one repeating the stored flag, changes
     * nothing; otherwise the flag is set and, for another user than the signed-in one, a toast is
     * offered. `name` is the display name the lookup would produce.
     */
    method HandleUserStatusUpdate(payload: Option<FrontendUserStatus.StatusPush>, currentUserId: Option<string>, name: string, now: int)
      modifies this
      ensures (payload.None? || payload.value.userId == "" || SameFlag(old(onlineUsers), payload.value)) ==>
        onlineUsers == old(onlineUsers) && notices == old(notices) && toasts == old(toasts) &&
        recentNotifications == old(recentNotifications)
      ensures (payload.Some? && payload.value.userId != "" && !SameFlag(old(onlineUsers), payload.value)) ==>
        onlineUsers == old(onlineUsers)[payload.value.userId := payload.value.isOnline] &&
        notices == old(notices) + [Notice(listeners, onlineUsers)] &&
        (currentUserId.None? || currentUserId.value == payload.value.userId ==>
          toasts == old(toasts) && recentNotifications == old(recentNotifications)) &&
        (currentUserId.Some? && currentUserId.value != payload.value.userId ==>
          toasts == (if Suppressed(old(recentNotifications), payload.value.userId, now) then old(toasts)
            else old(toasts) + [ToastFor(name, payload.value.isOnline)]))
      ensures listeners == old(listeners) && initialized == old(initialized) && subscribed == old(subscribed)
    {
      if payload.None? || payload.value.userId == "" {
        return;
      }
      var p := payload.value;
      if SameFlag(onlineUsers, p) {
        return;
      }
      SetUserStatus(p.userId, p.isOnline);
      if currentUserId.Some? && p.userId != currentUserId.value {
        ShowStatusNotification(p.userId, p.isOnline, name, now);
      }
    }

    /**
     * `initializeStatuses`: no list changes nothing; otherwise the usable contacts (keyed by
     * `userId`) are laid over the map and listeners hear of it even when nothing changed.
     */
    method InitializeStatuses(contacts: Option<seq<FrontendUserStatus.StatusEntry>>)
      modifies this
      ensures contacts.None? ==> onlineUsers == old(onlineUsers) && notices == old(notices)
      ensures contacts.Some? ==>
        onlineUsers == old(onlineUsers) + FrontendUserStatus.Statuses(contacts.value) &&
        notices == old(notices) + [Notice(listeners, onlineUsers)]
      ensures listeners == old(listeners) && recentNotifications == old(recentNotifications)
      ensures toasts == old(toasts) && initialized == old(initialized) && subscribed == old(subscribed)
    {
      if contacts.None? {
        return;
      }
      var list := contacts.value;
      var newStatuses: map<string, bool> := map[];
      var i := 0;
      while i < |list|
        invariant 0 <= i <= |list|
        invariant newStatuses == FrontendUserStatus.Statuses(list[..i])
      {
        assert list[..i + 1][..i] == list[..i];
        if list[i].key != "" && list[i].isOnline.Some? {
          newStatuses := newStatuses[list[i].key := list[i].isOnline.value];
        }
        i := i + 1;
      }
      assert list[..|list|] == list;
      onlineUsers := onlineUsers + newStatuses;
      NotifyListeners();
    }

    /** `clearUserStatus`: a falsy id is ignored; otherwise the user is stored offline. */
    method ClearUserStatus(userId: string)
      modifies this
      ensures onlineUsers == FrontendUserStatus.ClearUserStatus(old(onlineUsers), userId)
      ensures userId != "" ==> !IsUserOnline(userId, true)
      ensures listeners == old(listeners) && recentNotifications == old(recentNotifications)
      ensures toasts == old(toasts) && initialized == old(initialized) && subscribed == old(subscribed)
    {
      if userId == "" {
        return;
      }
      SetUserStatus(userId, false);
    }

    /** `addListener`. */
    method AddListener(callback: nat)
      modifies this
      ensures listeners == old(listeners) + {callback}
      ensures onlineUsers == old(onlineUsers) && recentNotifications == old(recentNotifications) && notices == old(notices)
      ensures toasts == old(toasts) && initialized == old(initialized) && subscribed == old(subscribed)
    {
      listeners := listeners + {callback};
    }

    /** `removeListener`, which is also what the function returned by `addListener` does. */
    method RemoveListener(callback: nat)
      modifies this
      ensures listeners == old(listeners) - {callback}
      ensures onlineUsers == old(onlineUsers) && recentNotifications == old(recentNotifications) && notices == old(notices)
      ensures toasts == old(toasts) && initialized == old(initialized) && subscribed == old(subscribed)
    {
      listeners := listeners - {callback};
    }

    /** `getUsersStatus`: each requested id mapped to what `isUserOnline` reads for it with default `false`. */
    method GetUsersStatus(userIds: seq<string>) returns (statuses: map<string, bool>)
      ensures statuses.Keys == set i | 0 <= i < |userIds| :: userIds[i]
      ensures forall u :: u in statuses ==> statuses[u] == IsUserOnline(u, false)
    {
      statuses := map[];
      var i := 0;
      while i < |userIds|
        invariant 0 <= i <= |userIds|
        invariant statuses.Keys == set j | 0 <= j < i :: userIds[j]
        invariant forall u :: u in statuses ==> statuses[u] == IsUserOnline(u, false)
      {
        statuses := statuses[userIds[i] := IsUserOnline(userIds[i], false)];
        i := i + 1;
      }
    }

    /** `cleanup`: the subscription is dropped, and the listeners and the map are emptied; the toast history stays. */
    method Cleanup()
      modifies this
      ensures !subscribed && listeners == {} && onlineUsers == map[] && !initialized
      ensures recentNotifications == old(recentNotifications) && notices == old(notices) && toasts == old(toasts)
    {
      subscribed := false;
      listeners := {};
      onlineUsers := map[];
      initialized := false;
    }
  }
}
