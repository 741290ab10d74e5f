/**
 * The client's notification list (client/src/stores/notificationStore.js): newest first,
 * at most fifty entries, each unread until marked, and a panel whose opening marks them all read.
 */
module NotificationStore {
  import opened Optional
  import opened Text

  /** `{ id, type, title, message, read, timestamp }` */
  datatype Notification = Notification(id: string, kind: string, title: string, message: string, read: bool, timestamp: int)

  /** The payload of an `invite-received` event, stamped with the time it arrived. */
  datatype Invite = Invite(lobbyId: string, hostUsername: string, playerCount: int, maxPlayers: int, timestamp: int)

  /** Only the fifty newest notifications are kept. */
  const MaxNotifications: nat := 50

  /** `notifications.filter(n => !n.read).length` */
  function UnreadCount(ns: seq<Notification>): (n: nat)
    ensures n <= |ns|
    ensures n == 0 <==> forall x <- ns :: x.read
  {
    if ns == [] then 0 else (if ns[0].read then 0 else 1) + UnreadCount(ns[1..])
  }

  /** `notifications.some(n => !n.read)`: the badge shows exactly when the unread count is positive. */
  predicate HasUnread(ns: seq<Notification>): (b: bool)
    ensures b <==> UnreadCount(ns) > 0
  {
    exists x <- ns :: !x.read
  }

  lemma {:induction false} UnreadCountConcat(a: seq<Notification>, b: seq<Notification>)
    ensures UnreadCount(a + b) == UnreadCount(a) + UnreadCount(b)
  {
    if a == [] {
      assert a + b == b;
    } else {
      assert (a + b)[1..] == a[1..] + b;
      UnreadCountConcat(a[1..], b);
    }
  }

  /** `unshift` followed by `slice(0, 50)` when the list grew past fifty. */
  function Prepended(ns: seq<Notification>, n: Notification): (r: seq<Notification>)
    ensures |ns| <= MaxNotifications ==> |r| <= MaxNotifications
    ensures r != [] && r[0] == n
    ensures r == [n] + ns || (|ns| >= MaxNotifications && r == ([n] + ns)[..MaxNotifications])
  {
    var s := [n] + ns;
    if |s| > MaxNotifications then s[..MaxNotifications] else s
  }

  /** The list after `ns` were added one after another, from an empty store. */
  function Added(ns: seq<Notification>): seq<Notification> {
    if ns == [] then [] else Prepended(Added(ns[..|ns| - 1]), ns[|ns| - 1])
  }

  /**
   * However many notifications arrive, the list holds exactly the fifty newest of them,
   * newest first.
   */
  lemma {:induction false} AddedKeepsNewest(ns: seq<Notification>)
    ensures |Added(ns)| == if |ns| <= MaxNotifications then |ns| else MaxNotifications
    ensures forall i :: 0 <= i < |Added(ns)| ==> Added(ns)[i] == ns[|ns| - 1 - i]
  {
    if ns != [] {
      var pre := ns[..|ns| - 1];
      var n := ns[|ns| - 1];
      AddedKeepsNewest(pre);
      var r := Added(ns);
      var rp := Added(pre);
      assert r == Prepended(rp, n);
      forall i | 0 <= i < |r| ensures r[i] == ns[|ns| - 1 - i] {
        if i > 0 {
          assert r[i] == ([n] + rp)[i] == rp[i - 1];
          assert rp[i - 1] == pre[|pre| - i];
        }
      }
    }
  }

  /** `notifications.find(n => n.id === id)`, as a position. */
  function FindId(ns: seq<Notification>, id: string): (r: Option<nat>)
    ensures r.Some? ==> r.value < |ns| && ns[r.value].id == id
    ensures r.Some? ==> forall j :: 0 <= j < r.value ==> ns[j].id != id
    ensures r.None? ==> forall x <- ns :: x.id != id
  {
    if ns == [] then None
    else if ns[0].id == id then Some(0)
    else match FindId(ns[1..], id) {
      case None => None
      case Some(k) => Some(k + 1)
    }
  }

  /** Marking the first entry with an id read lowers the unread count by one if it was unread. */
  lemma MarkLowersCount(ns: seq<Notification>, i: nat)
    requires i < |ns|
    ensures UnreadCount(ns[i := ns[i].(read := true)]) == UnreadCount(ns) - (if ns[i].read then 0 else 1)
  {
    var m := ns[i := ns[i].(read := true)];
    assert ns == ns[..i] + [ns[i]] + ns[i + 1..];
    assert m == ns[..i] + [m[i]] + ns[i + 1..];
    UnreadCountConcat(ns[..i] + [ns[i]], ns[i + 1..]);
    UnreadCountConcat(ns[..i], [ns[i]]);
    UnreadCountConcat(ns[..i] + [m[i]], ns[i + 1..]);
    UnreadCountConcat(ns[..i], [m[i]]);
  }

  /**
   * Ids are the clock's milliseconds as text: two notifications that arrive in the same
   * millisecond share an id, and marking that id reaches only the newer one.
   */
  lemma SameMillisecondShadows(ns: seq<Notification>, kind: string, title: string, message: string, now: nat)
    ensures var first := Notification(NatToString(now), kind, title, message, false, now);
      var second := Notification(NatToString(now), kind, title, message, false, now);
      var list := Prepended(Prepended(ns, first), second);
      FindId(list, NatToString(now)) == Some(0)
  {
  }

  class NotificationStore {
    var notifications: seq<Notification>
    var pendingInvite: Option<Invite>
    var showPanel: bool

    ghost predicate Valid()
      reads this
    {
      |notifications| <= MaxNotifications
    }

    constructor()
      ensures Valid() && notifications == [] && pendingInvite == None && !showPanel
    {
      notifications := [];
      pendingInvite := None;
      showPanel := false;
    }

    /** addNotification: an unread entry stamped with the clock goes in front. */
    method AddNotification(kind: string, title: string, message: string, now: nat)
      requires Valid()
      modifies this
      ensures Valid() && pendingInvite == old(pendingInvite) && showPanel == old(showPanel)
      ensures notifications == Prepended(old(notifications), Notification(NatToString(now), kind, title, message, false, now))
      ensures |old(notifications)| < MaxNotifications ==> UnreadCount(notifications) == UnreadCount(old(notifications)) + 1
    {
      var n := Notification(NatToString(now), kind, title, message, false, now);
      UnreadCountConcat([n], notifications);
      notifications := [n] + notifications;
      if |notifications| > MaxNotifications {
        notifications := notifications[..MaxNotifications];
      }
    }

    /** addInvite: the invite is kept as pending and announced by one 'invite' notification. */
    method AddInvite(lobbyId: string, hostUsername: string, playerCount: int, maxPlayers: int, now: nat)
      requires Valid()
      modifies this
      ensures Valid() && showPanel == old(showPanel)
      ensures pendingInvite == Some(Invite(lobbyId, hostUsername, playerCount, maxPlayers, now))
      ensures notifications == Prepended(old(notifications),
        Notification(NatToString(now), "invite", "Lobby Invite", hostUsername + " invited you to their lobby", false, now))
    {
      pendingInvite := Some(Invite(lobbyId, hostUsername, playerCount, maxPlayers, now));
      AddNotification("invite", "Lobby Invite", hostUsername + " invited you to their lobby", now);
    }

    /** clearInvite */
    method ClearInvite()
      modifies this
      ensures pendingInvite == None && notifications == old(notifications) && showPanel == old(showPanel)
    {
      pendingInvite := None;
    }

    /** markAsRead: only the first entry with that id is marked; an unknown id changes nothing. */
    method MarkAsRead(id: string)
      requires Valid()
      modifies this
      ensures Valid() && pendingInvite == old(pendingInvite) && showPanel == old(showPanel)
      ensures match FindId(old(notifications), id)
        case None => notifications == old(notifications)
        case Some(i) => notifications == old(notifications)[i := old(notifications)[i].(read := true)]
                        && UnreadCount(notifications) == UnreadCount(old(notifications)) - (if old(notifications)[i].read then 0 else 1)
    {
      var found := FindId(notifications, id);
      if found.Some? {
        var i := found.value;
        MarkLowersCount(notifications, i);
        notifications := notifications[i := notifications[i].(read := true)];
      }
    }

    /** markAllAsRead: every entry is marked, in place, one by one. */
    method MarkAllAsRead()
      requires Valid()
      modifies this
      ensures Valid() && pendingInvite == old(pendingInvite) && showPanel == old(showPanel)
      ensures |notifications| == |old(notifications)|
      ensures forall i :: 0 <= i < |notifications| ==> notifications[i] == old(notifications)[i].(read := true)
      ensures UnreadCount(notifications) == 0
    {
      for i := 0 to |notifications|
        invariant |notifications| == |old(notifications)|
        invariant pendingInvite == old(pendingInvite) && showPanel == old(showPanel)
        invariant forall j :: 0 <= j < i ==> notifications[j] == old(notifications)[j].(read := true)
        invariant forall j :: i <= j < |notifications| ==> notifications[j] == old(notifications)[j]
      {
        notifications := notifications[i := notifications[i].(read := true)];
      }
      forall x <- notifications ensures x.read {
        var j :| 0 <= j < |notifications| && notifications[j] == x;
      }
    }

    /** clearAll */
    method ClearAll()
      modifies this
      ensures notifications == [] && pendingInvite == old(pendingInvite) && showPanel == old(showPanel)
    {
      notifications := [];
    }

    /** togglePanel: the panel flips; opening it marks everything read, closing it changes nothing else. */
    method TogglePanel()
      requires Valid()
      modifies this
      ensures Valid() && pendingInvite == old(pendingInvite)
      ensures showPanel == !old(showPanel)
      ensures showPanel ==> |notifications| == |old(notifications)| && UnreadCount(notifications) == 0
                            && forall i :: 0 <= i < |notifications| ==> notifications[i] == old(notifications)[i].(read := true)
      ensures !showPanel ==> notifications == old(notifications)
    {
      showPanel := !showPanel;
      if showPanel {
        MarkAllAsRead();
      }
    }
  }
}
