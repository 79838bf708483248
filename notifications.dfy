/**
 * The notification service: input validation in front of the `notifications` table, and the
 * sender enrichment of a page of notifications. The table is a sequence in insertion order
 * (so `created_at DESC` is newest first) and ids come from an AUTOINCREMENT counter. The users
 * table, read for sender names, is a map. The WebSocket hub and the logger are not modelled.
 */
module Notifications {
  import opened Wrappers
  import GroupRepository
  import ChatRepository

  /** `sql.NullString`. */
  datatype NullString = NullString(str: string, valid: bool)

  /** The request `CreateNotification` receives. */
  datatype NewNotification = NewNotification(
    userId: string, senderId: NullString, kind: string, message: string,
    targetGroupId: NullString, targetEventId: NullString)

  /** A `notifications` row. */
  datatype Notification = Notification(
    id: int, userId: string, senderId: NullString, kind: string, message: string, isRead: bool,
    targetGroupId: NullString, targetEventId: NullString)

  /** The users columns the enrichment reads. */
  datatype User = User(firstName: string, lastName: string, avatar: string)

  /** A notification with its sender's display name and avatar ("" when it has no sender). */
  datatype NotificationWithUser = NotificationWithUser(notification: Notification, senderName: string, senderAvatar: string)

  /** A nullable column is copied only when it is set; otherwise it stays the zero value. */
  function Copied(n: NullString): (r: NullString)
    ensures r.valid == n.valid
    ensures r.valid ==> r == n
    ensures !r.valid ==> r == NullString("", false)
  {
    if n.valid then n else NullString("", false)
  }

  /** The row `CreateNotification` inserts, given the id the table assigns. */
  function NewRow(n: NewNotification, id: int): (row: Notification)
    ensures row.id == id && row.userId == n.userId && row.kind == n.kind && row.message == n.message
    ensures !row.isRead
    ensures row.senderId == Copied(n.senderId) && row.targetGroupId == Copied(n.targetGroupId)
    ensures row.targetEventId == Copied(n.targetEventId)
  {
    Notification(id, n.userId, Copied(n.senderId), n.kind, n.message, false, Copied(n.targetGroupId), Copied(n.targetEventId))
  }

  /** The user's rows in table order. */
  function ForUser(rows: seq<Notification>, u: string): (r: seq<Notification>)
    ensures forall n :: n in r <==> n in rows && n.userId == u
    ensures |r| <= |rows|
    ensures (forall n :: n in rows ==> n.userId != u) ==> r == []
  {
    if rows == [] then []
    else ForUser(rows[..|rows| - 1], u) + (if rows[|rows| - 1].userId == u then [rows[|rows| - 1]] else [])
  }

  /** The repository's `GetNotifications`: the user's rows, newest first, one LIMIT/OFFSET page. */
  function Page(rows: seq<Notification>, u: string, limit: int, offset: int): (page: seq<Notification>)
    ensures forall n :: n in page ==> n in rows && n.userId == u
    ensures limit >= 0 ==> |page| <= limit
  {
    var newest := GroupRepository.Reversed(ForUser(rows, u));
    var page := ChatRepository.Window(newest, limit, offset);
    assert forall n :: n in page ==> n in newest;
    page
  }

  /** Whether the row names a sender at all (a set, non-empty `sender_id`). */
  predicate HasSender(n: Notification)
  {
    n.senderId.valid && n.senderId.str != ""
  }

  /** The row survives enrichment: it has no sender, or its sender can be looked up. */
  predicate Resolvable(n: Notification, users: map<string, User>)
  {
    !HasSender(n) || n.senderId.str in users
  }

  /** The enriched form of a resolvable row. */
  function WithUser(n: Notification, users: map<string, User>): (r: NotificationWithUser)
    requires Resolvable(n, users)
    ensures r.notification == n
    ensures !HasSender(n) ==> r.senderName == "" && r.senderAvatar == ""
    ensures HasSender(n) ==> r.senderAvatar == users[n.senderId.str].avatar
  {
    if HasSender(n) then
      var sender := users[n.senderId.str];
      NotificationWithUser(n, sender.firstName + " " + sender.lastName, sender.avatar)
    else NotificationWithUser(n, "", "")
  }

  /** The loop of `GetNotifications`: rows whose sender lookup fails are skipped, the rest enriched in order. */
  function Enriched(page: seq<Notification>, users: map<string, User>): (r: seq<NotificationWithUser>)
    ensures |r| <= |page|
  {
    if page == [] then []
    else
      var last := page[|page| - 1];
      Enriched(page[..|page| - 1], users) + (if Resolvable(last, users) then [WithUser(last, users)] else [])
  }

  /** Exactly the resolvable rows of the page come back, each with its own notification. */
  lemma {:induction false} EnrichedRows(page: seq<Notification>, users: map<string, User>)
    ensures forall x :: x in Enriched(page, users) ==> x.notification in page && Resolvable(x.notification, users)
    ensures forall n :: n in page && Resolvable(n, users) ==> WithUser(n, users) in Enriched(page, users)
    ensures (forall n :: n in page ==> Resolvable(n, users)) ==> |Enriched(page, users)| == |page|
  {
    if page != [] {
      var init := page[..|page| - 1];
      EnrichedRows(init, users);
      assert page == init + [page[|page| - 1]];
      assert forall n :: n in page ==> n in init || n == page[|page| - 1];
    }
  }

  /** Ids are positive and below the AUTOINCREMENT counter, and no two different rows share one. */
  predicate IdsBelow(rows: seq<Notification>, nextId: int)
  {
    (forall n :: n in rows ==> 0 < n.id < nextId) &&
    (forall a, b :: a in rows && b in rows && a.id == b.id ==> a == b)
  }

  /** `UPDATE ... SET is_read = TRUE` on the rows the predicate selects. */
  function MarkedWhere(rows: seq<Notification>, id: int, u: string, byId: bool): (r: seq<Notification>)
    ensures |r| == |rows|
    ensures forall i :: 0 <= i < |rows| ==>
      r[i] == (if (byId && rows[i].id == id) || (!byId && rows[i].userId == u) then rows[i].(isRead := true) else rows[i])
  {
    seq(|rows|, i requires 0 <= i < |rows| =>
      if (byId && rows[i].id == id) || (!byId && rows[i].userId == u) then rows[i].(isRead := true) else rows[i])
  }

  /** `DELETE` of the rows with the id (`byId`) or of the user. */
  function DeletedWhere(rows: seq<Notification>, id: int, u: string, byId: bool): (r: seq<Notification>)
    ensures forall n :: n in r <==> n in rows && !((byId && n.id == id) || (!byId && n.userId == u))
    ensures |r| <= |rows|
  {
    if rows == [] then []
    else
      var last := rows[|rows| - 1];
      DeletedWhere(rows[..|rows| - 1], id, u, byId) + (if (byId && last.id == id) || (!byId && last.userId == u) then [] else [last])
  }

  class NotificationService {
    var rows: seq<Notification>
    var nextId: int
    var users: map<string, User>

    predicate Valid()
      reads this
    {
      nextId > 0 && IdsBelow(rows, nextId)
    }

    constructor(users: map<string, User>)
      ensures rows == [] && nextId == 1 && this.users == users && Valid()
    {
      rows, nextId, this.users := [], 1, users;
    }

    /** `CreateNotification`: refuses an empty recipient; otherwise inserts an unread row. */
    method CreateNotification(n: NewNotification) returns (r: Status)
      modifies this
      ensures r.Failure? <==> n.userId == ""
      ensures r.Failure? ==> r.msg == "user ID cannot be empty" && rows == old(rows) && nextId == old(nextId)
      ensures r.Success? ==> rows == old(rows) + [NewRow(n, old(nextId))] && nextId == old(nextId) + 1
      ensures users == old(users)
      ensures old(Valid()) ==> Valid()
    {
      if n.userId == "" {
        return Failure("user ID cannot be empty");
      }
      rows := rows + [NewRow(n, nextId)];
      nextId := nextId + 1;
      return Success;
    }

    /** `GetNotifications`: refuses an empty user; otherwise one page, with rows whose sender is unknown skipped. */
    method GetNotifications(u: string, limit: int, offset: int) returns (r: Result<seq<NotificationWithUser>>)
      ensures r.Err? <==> u == ""
      ensures r.Err? ==> r.msg == "user ID cannot be empty"
      ensures r.Ok? ==> r.value == Enriched(Page(rows, u, limit, offset), users)
      ensures r.Ok? ==> forall x :: x in r.value ==> x.notification in rows && x.notification.userId == u
    {
      if u == "" {
        return Err("user ID cannot be empty");
      }
      var page := Page(rows, u, limit, offset);
      var out := Enrich(page, users);
      EnrichedRows(page, users);
      return Ok(out);
    }

    /** The enrichment loop of `GetNotifications`. */
    static method Enrich(page: seq<Notification>, users: map<string, User>) returns (out: seq<NotificationWithUser>)
      ensures out == Enriched(page, users)
    {
      out := [];
      var i := 0;
      while i < |page|
        invariant 0 <= i <= |page|
        invariant out == Enriched(page[..i], users)
      {
        var n := page[i];
        assert page[..i + 1][..i] == page[..i];
        if Resolvable(n, users) {
          out := out + [WithUser(n, users)];
        }
        i := i + 1;
      }
      assert page[..|page|] == page;
    }

    /** `MarkNotificationAsRead`: refuses a non-positive id; otherwise marks the row with that id. */
    method MarkNotificationAsRead(id: int) returns (r: Status)
      modifies this
      ensures r.Failure? <==> id <= 0
      ensures r.Failure? ==> r.msg == "invalid notification ID" && rows == old(rows)
      ensures r.Success? ==> rows == MarkedWhere(old(rows), id, "", true)
      ensures nextId == old(nextId) && users == old(users)
      ensures old(Valid()) ==> Valid()
    {
      if id <= 0 {
        return Failure("invalid notification ID");
      }
      rows := MarkedWhere(rows, id, "", true);
      return Success;
    }

    /** `MarkAllNotificationsAsRead`: refuses an empty user; otherwise every row of the user is read. */
    method MarkAllNotificationsAsRead(u: string) returns (r: Status)
      modifies this
      ensures r.Failure? <==> u == ""
      ensures r.Failure? ==> r.msg == "user ID cannot be empty" && rows == old(rows)
      ensures r.Success? ==> rows == MarkedWhere(old(rows), 0, u, false)
      ensures r.Success? ==> forall n :: n in ForUser(rows, u) ==> n.isRead
      ensures nextId == old(nextId) && users == old(users)
      ensures old(Valid()) ==> Valid()
    {
      if u == "" {
        return Failure("user ID cannot be empty");
      }
      rows := MarkedWhere(rows, 0, u, false);
      return Success;
    }

    /** `ClearAllNotifications`: refuses an empty user; otherwise deletes every row of the user. */
    method ClearAllNotifications(u: string) returns (r: Status)
      modifies this
      ensures r.Failure? <==> u == ""
      ensures r.Failure? ==> r.msg == "user ID cannot be empty" && rows == old(rows)
      ensures r.Success? ==> rows == DeletedWhere(old(rows), 0, u, false) && ForUser(rows, u) == []
      ensures nextId == old(nextId) && users == old(users)
      ensures old(Valid()) ==> Valid()
    {
      if u == "" {
        return Failure("user ID cannot be empty");
      }
      rows := DeletedWhere(rows, 0, u, false);
      return Success;
    }

    /** `DeleteNotification`: refuses a non-positive id; otherwise deletes the row with that id. */
    method DeleteNotification(id: int) returns (r: Status)
      modifies this
      ensures r.Failure? <==> id <= 0
      ensures r.Failure? ==> r.msg == "invalid notification ID" && rows == old(rows)
      ensures r.Success? ==> rows == DeletedWhere(old(rows), id, "", true)
      ensures r.Success? ==> forall n :: n in rows ==> n.id != id
      ensures nextId == old(nextId) && users == old(users)
      ensures old(Valid()) ==> Valid()
    {
      if id <= 0 {
        return Failure("invalid notification ID");
      }
      rows := DeletedWhere(rows, id, "", true);
      return Success;
    }
  }
}
