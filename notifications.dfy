/** The notification inbox: the caller's listing (own and broadcast
    notifications, optionally only read or unread ones, newest first, one
    page), marking one as read, and posting a new one, over the shared
    `notifications` array of the development store, here the field of one
    `NotificationStore` object. The caller's id and the clock are
    parameters. */
module Notifications {
  import opened Wrappers
  import opened JsStrings
  import opened Seqs

  datatype Notification = Notification(
    id: int,
    userId: Option<int>,
    title: Option<string>,
    message: Option<string>,
    kind: string,
    read: bool,
    readAt: Option<int>,
    createdAt: int)

  datatype InboxReply = InboxReply(notifications: seq<Notification>, total: nat, unreadCount: nat)

  /** Addressed to the caller, or to everybody (`userId` null). */
  predicate Visible(userId: int, n: Notification) {
    n.userId == Some(userId) || n.userId == None
  }

  /** `read !== undefined` keeps `n.read === (read === 'true')`. */
  predicate PassesReadFilter(read: Option<string>, n: Notification) {
    read.None? || n.read == (read.value == "true")
  }

  function CreatedAt(n: Notification): int {
    n.createdAt
  }

  /** The caller's notifications after the optional read filter, in store
      order. */
  function Inbox(ns: seq<Notification>, userId: int, read: Option<string>): (r: seq<Notification>)
    ensures forall n :: n in r <==> n in ns && Visible(userId, n) && PassesReadFilter(read, n)
    ensures |r| <= |ns|
  {
    var mine := Filter(ns, (n: Notification) => Visible(userId, n));
    if read.None? then mine else Filter(mine, (n: Notification) => n.read == (read.value == "true"))
  }

  function Unread(ns: seq<Notification>): (r: seq<Notification>)
    ensures forall n :: n in r <==> n in ns && !n.read
  {
    Filter(ns, (n: Notification) => !n.read)
  }

  /** `notifications.findIndex(n => n.id === key && visible(n))` */
  function IndexOfVisible(ns: seq<Notification>, key: Option<int>, userId: int): (i: int)
    ensures -1 <= i < |ns|
    ensures i >= 0 ==> key == Some(ns[i].id) && Visible(userId, ns[i])
    ensures i >= 0 ==> forall j :: 0 <= j < i ==> !(key == Some(ns[j].id) && Visible(userId, ns[j]))
    ensures i == -1 <==> forall j :: 0 <= j < |ns| ==> !(key == Some(ns[j].id) && Visible(userId, ns[j]))
  {
    if ns == [] then -1
    else if key == Some(ns[0].id) && Visible(userId, ns[0]) then 0
    else
      var i := IndexOfVisible(ns[1..], key, userId);
      if i == -1 then -1 else i + 1
  }

  /** Asking for read notifications only leaves nothing unread. */
  lemma ReadOnlyHasNoUnread(ns: seq<Notification>, userId: int)
    ensures Unread(Inbox(ns, userId, Some("true"))) == []
  {
  }

  function NotificationId(n: Notification): int {
    n.id
  }

  /** Without a read filter every listed notification is counted once as
      read or as unread. */
  lemma TotalSplits(ns: seq<Notification>, userId: int)
    ensures var inbox := Inbox(ns, userId, None);
      |Unread(inbox)| + |Filter(inbox, (n: Notification) => n.read)| == |inbox|
  {
    var inbox := Inbox(ns, userId, None);
    FilterSplitsLength(inbox, (n: Notification) => !n.read, (n: Notification) => n.read);
  }

  class NotificationStore {
    var notifications: seq<Notification>

    /** Every id is its position plus one. */
    ghost predicate Valid()
      reads this
    {
      IdsArePositions(notifications, NotificationId)
    }

    constructor()
      ensures notifications == [] && Valid()
    {
      notifications := [];
    }

    /** `GET /`: the page of the caller's inbox, newest first, with the size
        of the whole (filtered) inbox and the number of its unread items. */
    function List(userId: int, page: Option<int>, limit: Option<int>, read: Option<string>): (r: InboxReply)
      reads this
      ensures forall n :: n in r.notifications ==>
        n in notifications && Visible(userId, n) && PassesReadFilter(read, n)
      ensures SortedDesc(r.notifications, CreatedAt)
      ensures r.notifications == Paginate(SortDesc(Inbox(notifications, userId, read), CreatedAt), page.GetOr(1), limit.GetOr(10))
      ensures r.total == |Inbox(notifications, userId, read)|
      ensures r.unreadCount == |Unread(Inbox(notifications, userId, read))| <= r.total
      ensures read == Some("true") ==> r.unreadCount == 0
      ensures page.GetOr(1) >= 1 && limit.GetOr(10) >= 0 ==> |r.notifications| <= limit.GetOr(10)
    {
      var inbox := Inbox(notifications, userId, read);
      var sorted := SortDesc(inbox, CreatedAt);
      var shown := Paginate(sorted, page.GetOr(1), limit.GetOr(10));
      PaginateSorted(sorted, CreatedAt, page.GetOr(1), limit.GetOr(10));
      assert forall n :: n in shown ==> n in inbox by {
        forall n | n in shown ensures n in inbox {
          assert n in multiset(sorted);
        }
      }
      assert page.GetOr(1) >= 1 && limit.GetOr(10) >= 0 ==> |shown| <= limit.GetOr(10) by {
        if page.GetOr(1) >= 1 && limit.GetOr(10) >= 0 {
          PaginateWindow(sorted, page.GetOr(1), limit.GetOr(10));
        }
      }
      if read == Some("true") then
        ReadOnlyHasNoUnread(notifications, userId);
        InboxReply(shown, |inbox|, |Unread(inbox)|)
      else
        InboxReply(shown, |inbox|, |Unread(inbox)|)
    }

    /** `PUT /:notificationId/read`: found only among the caller's own and
        broadcast notifications; it is marked read with the time, and no
        other notification changes. */
    method MarkRead(userId: int, notificationId: string, now: int) returns (r: Response<string>)
      modifies this
      ensures var i := IndexOfVisible(old(notifications), ParseInt(notificationId), userId);
        && (i == -1 ==> r == Failure(404, "Notification not found") && notifications == old(notifications))
        && (i >= 0 ==>
              r == Success(200, "Notification marked as read")
              && notifications == old(notifications)[i := old(notifications)[i].(read := true, readAt := Some(now))])
      ensures |notifications| == |old(notifications)|
      ensures forall j :: 0 <= j < |notifications| ==>
        notifications[j].read == (old(notifications)[j].read ||
          j == IndexOfVisible(old(notifications), ParseInt(notificationId), userId))
      ensures old(Valid()) ==> Valid()
    {
      var i := IndexOfVisible(notifications, ParseInt(notificationId), userId);
      if i == -1 {
        return Failure(404, "Notification not found");
      }
      notifications := notifications[i := notifications[i].(read := true, readAt := Some(now))];
      r := Success(200, "Notification marked as read");
    }

    /** `POST /`: append one notification; a missing (or zero) user id makes
        it a broadcast, a missing type is `info`, and it starts unread. */
    method Create(userId: Option<int>, title: Option<string>, message: Option<string>, kind: Option<string>, now: int)
      returns (r: Response<Notification>)
      modifies this
      ensures r.Success? && r.code == 201
      ensures notifications == old(notifications) + [r.value]
      ensures r.value.id == |old(notifications)| + 1
      ensures r.value.userId == (if userId == None || userId == Some(0) then None else userId)
      ensures r.value.title == title && r.value.message == message
      ensures r.value.kind == kind.GetOr("info")
      ensures !r.value.read && r.value.readAt == None && r.value.createdAt == now
      ensures old(Valid()) ==> Valid()
    {
      var uid := if userId == None || userId == Some(0) then None else userId;
      var notification := Notification(|notifications| + 1, uid, title, message, kind.GetOr("info"), false, None, now);
      notifications := notifications + [notification];
      r := Success(201, notification);
    }
  }

  /** Marking as read is idempotent on the read flags: a second call for the
      same notification leaves every flag as the first call left it. */
  method MarkReadTwice(store: NotificationStore, userId: int, notificationId: string, now: int, later: int)
    returns (first: Response<string>, second: Response<string>)
    modifies store
    ensures second == first
    ensures |store.notifications| == |old(store.notifications)|
    ensures forall j :: 0 <= j < |store.notifications| ==>
      store.notifications[j].read == (old(store.notifications)[j].read ||
        j == IndexOfVisible(old(store.notifications), ParseInt(notificationId), userId))
  {
    ghost var before := store.notifications;
    first := store.MarkRead(userId, notificationId, now);
    ghost var middle := store.notifications;
    second := store.MarkRead(userId, notificationId, later);
    IndexOfVisibleStable(before, middle, ParseInt(notificationId), userId);
  }

  /** The listing is the inbox sorted newest first with nothing lost or
      duplicated, and with a positive page size each inbox item appears on
      exactly the page its position in that order gives. */
  lemma ListPages(store: NotificationStore, userId: int, read: Option<string>, limit: int, i: nat)
    requires limit > 0 && i < |Inbox(store.notifications, userId, read)|
    ensures var inbox := Inbox(store.notifications, userId, read);
      var sorted := SortDesc(inbox, CreatedAt);
      var shown := store.List(userId, Some(i / limit + 1), Some(limit), read).notifications;
      && multiset(sorted) == multiset(inbox)
      && SortedDesc(sorted, CreatedAt)
      && |sorted| == |inbox|
      && i % limit < |shown| && shown[i % limit] == sorted[i]
  {
    var inbox := Inbox(store.notifications, userId, read);
    SortedPagesCover(inbox, CreatedAt, limit, i);
  }

  /** Updating the read fields of a notification does not move the search. */
  lemma IndexOfVisibleStable(a: seq<Notification>, b: seq<Notification>, key: Option<int>, userId: int)
    requires |a| == |b|
    requires forall j :: 0 <= j < |a| ==> a[j].id == b[j].id && a[j].userId == b[j].userId
    ensures IndexOfVisible(a, key, userId) == IndexOfVisible(b, key, userId)
  {
  }
}
