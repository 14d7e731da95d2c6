/**
 * The state the `Layout` component keeps for its header: the signed-in user,
 * the dark-mode flag, the fetched notification list and the unread counter,
 * with the handlers that change them. Each handler is modelled as one
 * sequential step; a store call that throws is caught and logged, and the
 * handler then leaves the local state as described per method.
 */
module Layout {
  import opened Wrappers
  import opened Notifications
  import opened Preferences
  import opened Backend

  /** The sort key and the limit the feed is fetched with: newest first, 20 at most. */
  const SortKey: string := "-created_date"
  const FetchLimit: nat := 20

  /** The loop of `markAllAsRead`: `Notification.update(id, {read: true})`
      for each id in turn, each awaited before the next; `ok` is false when
      one of them threw, which ends the loop at that call. */
  method IssueMarkReads(store: Store, ids: seq<NotificationId>) returns (ok: bool)
    modifies store
    ensures store.calls == old(store.calls) + SequentialMarkReads(store.succeeds, |old(store.calls)|, ids)
    ensures ok == Completes(store.succeeds, |old(store.calls)|, |ids|)
  {
    ghost var start := |store.calls|;
    ghost var issued: seq<StoreCall> := [];
    var i := 0;
    assert ids[i..] == ids;
    while i < |ids|
      invariant 0 <= i <= |ids|
      invariant store.calls == old(store.calls) + issued && |issued| == i
      invariant SequentialMarkReads(store.succeeds, start, ids)
                == issued + SequentialMarkReads(store.succeeds, start + i, ids[i..])
      invariant Completes(store.succeeds, start, |ids|) == Completes(store.succeeds, start + i, |ids| - i)
    {
      SequentialMarkReadsStep(store.succeeds, start, ids, i, issued);
      var sent := store.MarkRead(ids[i]);
      issued := issued + [MarkReadCall(ids[i])];
      if !sent {
        return false;
      }
      i := i + 1;
    }
    return true;
  }

  class LayoutState {
    /** The user `User.me()` returned, or `None` when not authenticated. */
    const user: Option<User>
    var darkMode: bool
    var notifications: seq<Notification>
    var unreadCount: nat

    /** The counter agrees with the list it describes. */
    ghost predicate Consistent()
      reads this
    {
      unreadCount == UnreadCount(notifications)
    }

    /** The component once the user is known: an empty feed, a zero counter,
        and the dark-mode flag read from the user's stored preferences. */
    constructor (user: Option<User>)
      ensures this.user == user
      ensures notifications == [] && unreadCount == 0
      ensures darkMode == StoredDarkMode(user)
      ensures Consistent()
    {
      this.user := user;
      darkMode := StoredDarkMode(user);
      notifications := [];
      unreadCount := 0;
    }

    /** `loadNotifications`: without a user nothing happens; otherwise the
        feed is fetched and, if the fetch returns, the list is replaced and
        the counter recomputed from it; a failed fetch changes nothing. */
    method Load(store: Store)
      modifies this`notifications, this`unreadCount, store
      ensures user.None? ==>
                store.calls == old(store.calls)
                && notifications == old(notifications) && unreadCount == old(unreadCount)
      ensures user.Some? ==>
                store.calls == old(store.calls) + [FilterCall(user.value.id, SortKey, FetchLimit)]
      ensures user.Some? && store.succeeds(|old(store.calls)|) ==>
                notifications == store.rows(|old(store.calls)|) && Consistent()
      ensures user.Some? && !store.succeeds(|old(store.calls)|) ==>
                notifications == old(notifications) && unreadCount == old(unreadCount)
    {
      if user.None? {
        return;
      }
      var fetched := store.Filter(user.value.id, SortKey, FetchLimit);
      if fetched.Some? {
        notifications := fetched.value;
        unreadCount := UnreadCount(fetched.value);
      }
    }

    /** `markNotificationAsRead(id)`: the store update comes first; only if it
        returns is every entry with that id marked read and the counter
        decremented, never below 0. The counter stays consistent exactly when
        one unread entry carried the id, or nothing was unread. */
    method MarkRead(store: Store, id: NotificationId)
      modifies this`notifications, this`unreadCount, store
      ensures store.calls == old(store.calls) + [MarkReadCall(id)]
      ensures store.succeeds(|old(store.calls)|) ==>
                notifications == MarkedRead(old(notifications), id)
                && unreadCount == Decrement(old(unreadCount))
      ensures !store.succeeds(|old(store.calls)|) ==>
                notifications == old(notifications) && unreadCount == old(unreadCount)
      ensures old(Consistent()) && store.succeeds(|old(store.calls)|) ==>
                (Consistent() <==> UnreadWithId(old(notifications), id) == 1 || old(unreadCount) == 0)
    {
      var ok := store.MarkRead(id);
      if ok {
        MarkReadConsistentIff(notifications, id);
        notifications := MarkedRead(notifications, id);
        unreadCount := Decrement(unreadCount);
      }
    }

    /** `markAllAsRead`: one store update per unread entry, in list order,
        each awaited before the next. If all return, every entry is marked
        read and the counter set to 0. The first update that throws ends the
        loop: the updates before it stand, the local state is left alone. */
    method MarkAll(store: Store)
      modifies this`notifications, this`unreadCount, store
      ensures store.calls == old(store.calls)
                + SequentialMarkReads(store.succeeds, |old(store.calls)|, Ids(Unread(old(notifications))))
      ensures Completes(store.succeeds, |old(store.calls)|, UnreadCount(old(notifications))) ==>
                store.calls == old(store.calls) + MarkReadCalls(Ids(Unread(old(notifications))))
                && notifications == AllRead(old(notifications)) && unreadCount == 0 && Consistent()
      ensures !Completes(store.succeeds, |old(store.calls)|, UnreadCount(old(notifications))) ==>
                notifications == old(notifications) && unreadCount == old(unreadCount)
    {
      var unread := Unread(notifications);
      var ok := IssueMarkReads(store, Ids(unread));
      if ok {
        SequentialMarkReadsComplete(store.succeeds, |old(store.calls)|, Ids(unread));
        notifications := AllRead(notifications);
        unreadCount := 0;
      }
    }

    /** `toggleDarkMode`: the flag flips locally at once; with a user, the
        stored preferences are written back with only `dark_mode` replaced.
        A failed write is logged and the local flag stays flipped. */
    method ToggleDarkMode(store: Store)
      modifies this`darkMode, store
      ensures darkMode == !old(darkMode)
      ensures user.None? ==> store.calls == old(store.calls)
      ensures user.Some? ==>
                store.calls == old(store.calls) + [SavePreferencesCall(WithDarkMode(user.value.preferences, darkMode))]
    {
      var newDarkMode := !darkMode;
      darkMode := newDarkMode;
      if user.Some? {
        var saved := store.SavePreferences(WithDarkMode(user.value.preferences, newDarkMode));
      }
    }
  }
}
