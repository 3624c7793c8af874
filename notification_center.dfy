/** The notification panel: the list of notifications and the unread counter,
    changed by pushes from the real-time channel and by the panel's own
    REST calls (src/component/NotificationCenter.js). */
module NotificationCenter {
  import opened Wrappers
  import opened Api
  import opened Seqs
  import Text

  datatype Notification = Notification(id: string, message: string, createdAt: int, read: bool)

  /** The body of `getNotifications`: a list and the server's unread count. */
  datatype NotificationFeed = NotificationFeed(notifications: seq<Notification>, unreadCount: int)

  /** The query the panel sends when it fetches. */
  datatype NotificationQuery = NotificationQuery(limit: nat, unreadOnly: bool)

  const FetchQuery := NotificationQuery(50, false)

  /** `prev.map(n => n._id === id ? { ...n, read: true } : n)` */
  function MarkedRead(s: seq<Notification>, id: string): (r: seq<Notification>)
    ensures |r| == |s|
    ensures forall i :: 0 <= i < |s| ==>
      && r[i].id == s[i].id && r[i].message == s[i].message && r[i].createdAt == s[i].createdAt
      && r[i].read == (s[i].read || s[i].id == id)
  {
    Map(s, (n: Notification) => if n.id == id then n.(read := true) else n)
  }

  /** `prev.map(n => ({ ...n, read: true }))` */
  function AllRead(s: seq<Notification>): (r: seq<Notification>)
    ensures |r| == |s|
    ensures forall i :: 0 <= i < |s| ==> r[i] == s[i].(read := true)
  {
    Map(s, (n: Notification) => n.(read := true))
  }

  /** `prev.filter(n => n._id !== id)` */
  function WithoutId(s: seq<Notification>, id: string): (r: seq<Notification>)
    ensures forall n :: n in r ==> n in s && n.id != id
  {
    Filter(s, (n: Notification) => n.id != id)
  }

  /** How many entries of the list are unread. */
  function UnreadCount(s: seq<Notification>): nat {
    Count(s, (n: Notification) => !n.read)
  }

  /** How many entries carry `id` and are unread. */
  function UnreadWithId(s: seq<Notification>, id: string): nat {
    Count(s, (n: Notification) => !n.read && n.id == id)
  }

  /** How many entries carry `id`. */
  function WithId(s: seq<Notification>, id: string): nat {
    Count(s, (n: Notification) => n.id == id)
  }

  /** The counter agrees with the list. */
  predicate InSync(s: seq<Notification>, unreadCount: int) {
    unreadCount == UnreadCount(s)
  }

  lemma UnreadCons(n: Notification, s: seq<Notification>, id: string)
    ensures UnreadCount([n] + s) == (if n.read then 0 else 1) + UnreadCount(s)
    ensures UnreadWithId([n] + s, id) == (if !n.read && n.id == id then 1 else 0) + UnreadWithId(s, id)
    ensures WithId([n] + s, id) == (if n.id == id then 1 else 0) + WithId(s, id)
  {
    FilterCons(n, s, (n: Notification) => !n.read);
    FilterCons(n, s, (n: Notification) => !n.read && n.id == id);
    FilterCons(n, s, (n: Notification) => n.id == id);
  }

  /** Marking `id` read lowers the number of unread entries by the number of
      unread entries that carry `id`, and by nothing else. */
  lemma {:induction false} MarkedReadUnread(s: seq<Notification>, id: string)
    ensures UnreadCount(MarkedRead(s, id)) == UnreadCount(s) - UnreadWithId(s, id)
    decreases |s|
  {
    if s != [] {
      MarkedReadUnread(s[1..], id);
      var f := (n: Notification) => if n.id == id then n.(read := true) else n;
      assert s == [s[0]] + s[1..];
      MapCons(s[0], s[1..], f);
      UnreadCons(f(s[0]), MarkedRead(s[1..], id), id);
      UnreadCons(s[0], s[1..], id);
    }
  }

  /** After marking everything read no entry is unread. */
  lemma {:induction false} AllReadUnread(s: seq<Notification>)
    ensures UnreadCount(AllRead(s)) == 0
    decreases |s|
  {
    if s != [] {
      AllReadUnread(s[1..]);
      var f := (n: Notification) => n.(read := true);
      assert s == [s[0]] + s[1..];
      MapCons(s[0], s[1..], f);
      UnreadCons(f(s[0]), AllRead(s[1..]), "");
    }
  }

  /** Marking everything read twice is the same as once. */
  lemma AllReadIdempotent(s: seq<Notification>)
    ensures AllRead(AllRead(s)) == AllRead(s)
  {
  }

  /** Removing `id` drops exactly the entries with that id, keeps the rest
      in their order, and takes their unread ones out of the unread number. */
  lemma {:induction false} WithoutIdSpec(s: seq<Notification>, id: string)
    ensures forall n :: n in WithoutId(s, id) <==> n in s && n.id != id
    ensures Subsequence(WithoutId(s, id), s)
    ensures |WithoutId(s, id)| == |s| - WithId(s, id)
    ensures UnreadCount(WithoutId(s, id)) == UnreadCount(s) - UnreadWithId(s, id)
    decreases |s|
  {
    var p := (n: Notification) => n.id != id;
    forall n ensures n in WithoutId(s, id) <==> n in s && n.id != id {
      FilterMembership(s, p, n);
    }
    FilterIsSubsequence(s, p);
    if s != [] {
      WithoutIdSpec(s[1..], id);
      assert s == [s[0]] + s[1..];
      FilterCons(s[0], s[1..], p);
      UnreadCons(s[0], s[1..], id);
      if s[0].id == id {
        assert WithoutId(s, id) == WithoutId(s[1..], id);
      } else {
        UnreadCons(s[0], WithoutId(s[1..], id), id);
      }
    }
  }

  /** A push keeps the counter in step with the list exactly when the pushed
      notification is unread. */
  lemma PushSync(n: Notification, s: seq<Notification>, unreadCount: int)
    requires InSync(s, unreadCount)
    ensures InSync([n] + s, unreadCount + 1) <==> !n.read
  {
    UnreadCons(n, s, n.id);
  }

  /** Marking one id read and taking one off the counter keeps them in step
      exactly when one unread entry carries that id; when the entry was
      already read or is absent, the counter falls below the list's number. */
  lemma MarkAsReadSync(s: seq<Notification>, unreadCount: int, id: string)
    requires InSync(s, unreadCount)
    ensures InSync(MarkedRead(s, id), unreadCount - 1) <==> UnreadWithId(s, id) == 1
    ensures UnreadWithId(s, id) == 0 ==> unreadCount - 1 < UnreadCount(MarkedRead(s, id))
  {
    MarkedReadUnread(s, id);
  }

  /** Deleting leaves the counter alone, so it stays in step exactly when no
      unread entry carried the id. */
  lemma DeleteSync(s: seq<Notification>, unreadCount: int, id: string)
    requires InSync(s, unreadCount)
    ensures InSync(WithoutId(s, id), unreadCount) <==> UnreadWithId(s, id) == 0
  {
    WithoutIdSpec(s, id);
  }

  /** Marking everything read and zeroing the counter always leaves them in step. */
  lemma MarkAllSync(s: seq<Notification>)
    ensures InSync(AllRead(s), 0)
  {
    AllReadUnread(s);
  }

  const HourMillis := 1000 * 60 * 60
  const DayMillis := 24 * HourMillis

  /** How long ago a notification was created, as the panel words it. */
  datatype Age = JustNow | HoursAgo(hours: nat) | DaysAgo(days: nat) | OnDate(time: int)

  /** `formatDate`: whole hours elapsed (floored), bucketed below one hour,
      below a day and below a week; older dates are shown as a date. */
  function FormatAge(createdAt: int, now: int): (a: Age)
    ensures a == JustNow <==> now - createdAt < HourMillis
    ensures a.HoursAgo? <==> HourMillis <= now - createdAt < DayMillis
    ensures a.DaysAgo? <==> DayMillis <= now - createdAt < 7 * DayMillis
    ensures a.OnDate? <==> 7 * DayMillis <= now - createdAt
    ensures a.HoursAgo? ==> a.hours * HourMillis <= now - createdAt < (a.hours + 1) * HourMillis
    ensures a.DaysAgo? ==> a.days * DayMillis <= now - createdAt < (a.days + 1) * DayMillis
    ensures a.OnDate? ==> a.time == createdAt
  {
    // Math.floor: with a positive divisor Dafny's division rounds down too.
    var hours := (now - createdAt) / HourMillis;
    if hours < 1 then JustNow
    else if hours < 24 then HoursAgo(hours)
    else if hours < 168 then
      assert hours / 24 == (now - createdAt) / DayMillis;
      DaysAgo(hours / 24)
    else OnDate(createdAt)
  }

  /** The text of a relative age; `None` for an old date, whose text is the
      locale's date format. */
  function AgeText(a: Age): (r: Option<string>)
    ensures a.OnDate? <==> r.None?
    ensures a == JustNow ==> r == Some("Just now")
    ensures a.HoursAgo? ==> Suffixed(r, "h ago", a.hours)
    ensures a.DaysAgo? ==> Suffixed(r, "d ago", a.days)
  {
    match a
    case JustNow => Some("Just now")
    case HoursAgo(h) => Text.DecimalRoundTrip(h); Some(Text.Decimal(h) + "h ago")
    case DaysAgo(d) => Text.DecimalRoundTrip(d); Some(Text.Decimal(d) + "d ago")
    case OnDate(_) => None
  }

  /** `r` is some number's digits followed by `suffix`, and the digits read back as `n`. */
  predicate Suffixed(r: Option<string>, suffix: string, n: nat) {
    && r.Some? && |suffix| < |r.value|
    && r.value[|r.value| - |suffix|..] == suffix
    && var digits := r.value[..|r.value| - |suffix|];
       Text.IsDigits(digits) && Text.DecimalValue(digits) == n
  }

  /** The panel's state: `notifications` and `unreadCount`, plus the
      `loading` flag of the spinner. */
  class NotificationPanel {
    var notifications: seq<Notification>
    var unreadCount: int
    var loading: bool

    constructor ()
      ensures notifications == [] && unreadCount == 0 && loading
    {
      notifications := [];
      unreadCount := 0;
      loading := true;
    }

    /** The socket's `notification` handler: prepend, with no check for an
        entry with the same id, and count one more unread. */
    method OnNotification(n: Notification)
      modifies this
      ensures notifications == [n] + old(notifications)
      ensures unreadCount == old(unreadCount) + 1
      ensures loading == old(loading)
    {
      notifications := [n] + notifications;
      unreadCount := unreadCount + 1;
    }

    /** `fetchNotifications`: on success the response replaces both the list
        (dropping whatever pushes added) and the counter; on failure both stay. */
    method FetchNotifications(response: Outcome<NotificationFeed>) returns (query: NotificationQuery)
      modifies this
      ensures query == FetchQuery
      ensures response.Success? ==>
        notifications == response.value.notifications && unreadCount == response.value.unreadCount
      ensures response.Failure? ==>
        notifications == old(notifications) && unreadCount == old(unreadCount)
      ensures !loading
    {
      loading := true;
      query := FetchQuery;
      if response.Success? {
        notifications := response.value.notifications;
        unreadCount := response.value.unreadCount;
      }
      loading := false;
    }

    /** `markAsRead`: after the server confirms, mark the entries with `id`
        read and take one off the counter whatever the list held. */
    method MarkAsRead(id: string, response: Outcome<()>)
      modifies this
      ensures response.Success? ==>
        notifications == MarkedRead(old(notifications), id) && unreadCount == old(unreadCount) - 1
      ensures response.Failure? ==>
        notifications == old(notifications) && unreadCount == old(unreadCount)
      ensures loading == old(loading)
    {
      if response.Success? {
        notifications := MarkedRead(notifications, id);
        unreadCount := unreadCount - 1;
      }
    }

    /** `markAllAsRead`: every entry read and the counter zero. */
    method MarkAllAsRead(response: Outcome<()>)
      modifies this
      ensures response.Success? ==> notifications == AllRead(old(notifications)) && unreadCount == 0
      ensures response.Success? ==> InSync(notifications, unreadCount)
      ensures response.Failure? ==>
        notifications == old(notifications) && unreadCount == old(unreadCount)
      ensures loading == old(loading)
    {
      if response.Success? {
        notifications := AllRead(notifications);
        unreadCount := 0;
        MarkAllSync(old(notifications));
      }
    }

    /** `deleteNotification`: drop every entry with `id`; the counter is left
        as it was. */
    method DeleteNotification(id: string, response: Outcome<()>)
      modifies this
      ensures response.Success? ==> notifications == WithoutId(old(notifications), id)
      ensures response.Failure? ==> notifications == old(notifications)
      ensures unreadCount == old(unreadCount) && loading == old(loading)
    {
      if response.Success? {
        notifications := WithoutId(notifications, id);
      }
    }
  }

  /** Marking read an id the panel does not hold, on a fresh panel, takes
      the counter below zero while the list holds nothing unread. */
  method CounterGoesNegative() returns (unreadCount: int, unreadEntries: nat)
    ensures unreadCount == -1 && unreadEntries == 0
  {
    var panel := new NotificationPanel();
    panel.MarkAsRead("n1", Success(()));
    unreadCount := panel.unreadCount;
    unreadEntries := UnreadCount(panel.notifications);
  }

  /** The same push delivered twice gives two entries and counts twice; a
      later fetch replaces both with the server's snapshot. */
  method DuplicatePushThenFetch(n: Notification, snapshot: NotificationFeed)
    returns (pushed: seq<Notification>, pushedCount: int, fetched: seq<Notification>, fetchedCount: int)
    ensures pushed == [n, n] && pushedCount == 2
    ensures fetched == snapshot.notifications && fetchedCount == snapshot.unreadCount
  {
    var panel := new NotificationPanel();
    panel.OnNotification(n);
    panel.OnNotification(n);
    pushed, pushedCount := panel.notifications, panel.unreadCount;
    var _ := panel.FetchNotifications(Success(snapshot));
    fetched, fetchedCount := panel.notifications, panel.unreadCount;
  }
}
