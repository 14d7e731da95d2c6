/**
 * The record store as the layout sees it: an opaque service that answers
 * each call or throws. The store's own behaviour (which user's records it
 * returns, its sort order and its limit) is not modelled; what is modelled
 * is the log of calls the layout issues, in order, and an oracle fixed at
 * construction that says, per call number, whether that call succeeds and,
 * for a fetch, what it returns.
 */
module Backend {
  import opened Wrappers
  import opened Notifications
  import opened Preferences

  /** One call the layout makes into the store. */
  datatype StoreCall =
    | FilterCall(userId: UserId, sortKey: string, limit: nat)  // Notification.filter({user_id}, sortKey, limit)
    | MarkReadCall(id: NotificationId)                         // Notification.update(id, {read: true})
    | SavePreferencesCall(preferences: Prefs)                  // User.updateMyUserData({preferences})

  /** `ids.map(id => MarkReadCall(id))`: the calls that mark each id read, in order. */
  function MarkReadCalls(ids: seq<NotificationId>): (r: seq<StoreCall>)
    ensures |r| == |ids|
    ensures forall i :: 0 <= i < |ids| ==> r[i] == MarkReadCall(ids[i])
  {
    if ids == [] then [] else [MarkReadCall(ids[0])] + MarkReadCalls(ids[1..])
  }

  /** Whether the `n` calls numbered from `start` all return normally. */
  predicate Completes(succeeds: nat -> bool, start: nat, n: nat)
    decreases n
  {
    n == 0 || (succeeds(start) && Completes(succeeds, start + 1, n - 1))
  }

  /** `Completes` holds exactly when every one of the `n` calls succeeds. */
  lemma {:induction false} CompletesIff(succeeds: nat -> bool, start: nat, n: nat)
    ensures Completes(succeeds, start, n) <==> forall c :: start <= c < start + n ==> succeeds(c)
    decreases n
  {
    if n > 0 {
      CompletesIff(succeeds, start + 1, n - 1);
    }
  }

  /** The calls that `for (const id of ids) await Notification.update(id, {read: true})`
      issues when its calls are numbered from `start`: each id in turn, the
      call that throws included, and none after it. */
  function SequentialMarkReads(succeeds: nat -> bool, start: nat, ids: seq<NotificationId>): seq<StoreCall>
    decreases |ids|
  {
    if ids == [] then []
    else [MarkReadCall(ids[0])] + (if succeeds(start) then SequentialMarkReads(succeeds, start + 1, ids[1..]) else [])
  }

  /** One step of the loop at position `i`: with `issued` the calls made so
      far, the call for `ids[i]` is added; the loop goes on only if it returned. */
  lemma SequentialMarkReadsStep(succeeds: nat -> bool, start: nat, ids: seq<NotificationId>, i: nat, issued: seq<StoreCall>)
    requires i < |ids|
    requires SequentialMarkReads(succeeds, start, ids) == issued + SequentialMarkReads(succeeds, start + i, ids[i..])
    requires Completes(succeeds, start, |ids|) == Completes(succeeds, start + i, |ids| - i)
    ensures succeeds(start + i) ==>
              SequentialMarkReads(succeeds, start, ids)
              == (issued + [MarkReadCall(ids[i])]) + SequentialMarkReads(succeeds, start + (i + 1), ids[i + 1..])
    ensures succeeds(start + i) ==>
              Completes(succeeds, start, |ids|) == Completes(succeeds, start + (i + 1), |ids| - (i + 1))
    ensures !succeeds(start + i) ==>
              SequentialMarkReads(succeeds, start, ids) == issued + [MarkReadCall(ids[i])]
              && !Completes(succeeds, start, |ids|)
  {
    assert ids[i..][1..] == ids[i + 1..];
    var tail := if succeeds(start + i) then SequentialMarkReads(succeeds, start + i + 1, ids[i + 1..]) else [];
    assert SequentialMarkReads(succeeds, start + i, ids[i..]) == [MarkReadCall(ids[i])] + tail;
    assert issued + ([MarkReadCall(ids[i])] + tail) == (issued + [MarkReadCall(ids[i])]) + tail;
  }

  /** Whatever the store does, the loop issues a prefix of the calls for
      `ids`, in order, and never one twice or out of turn. */
  lemma {:induction false} SequentialMarkReadsIsPrefix(succeeds: nat -> bool, start: nat, ids: seq<NotificationId>)
    ensures var r := SequentialMarkReads(succeeds, start, ids);
            |r| <= |ids| && r == MarkReadCalls(ids[..|r|])
    decreases |ids|
  {
    if ids != [] {
      SequentialMarkReadsIsPrefix(succeeds, start + 1, ids[1..]);
      var r := SequentialMarkReads(succeeds, start, ids);
      assert ids[..|r|][1..] == ids[1..][..|r| - 1];
    }
  }

  /** When every call returns, the loop issues one call per id, in order. */
  lemma {:induction false} SequentialMarkReadsComplete(succeeds: nat -> bool, start: nat, ids: seq<NotificationId>)
    requires Completes(succeeds, start, |ids|)
    ensures SequentialMarkReads(succeeds, start, ids) == MarkReadCalls(ids)
    decreases |ids|
  {
    if ids != [] {
      SequentialMarkReadsComplete(succeeds, start + 1, ids[1..]);
    }
  }

  /** When the call for `ids[i]` is the first to throw, the loop has issued
      exactly the calls for `ids[..i + 1]`: the ones that returned, then the
      one that threw. */
  lemma {:induction false} SequentialMarkReadsStop(succeeds: nat -> bool, start: nat, ids: seq<NotificationId>, i: nat)
    requires i < |ids|
    requires Completes(succeeds, start, i)
    requires !succeeds(start + i)
    ensures SequentialMarkReads(succeeds, start, ids) == MarkReadCalls(ids[..i + 1])
    ensures !Completes(succeeds, start, |ids|)
    decreases i
  {
    if i > 0 {
      SequentialMarkReadsStop(succeeds, start + 1, ids[1..], i - 1);
      assert ids[..i + 1][1..] == ids[1..][..i];
    }
  }

  /** Five pending ids, with the loop's calls numbered from 1 and the third
      update throwing: the first three calls are issued, none after, and the
      loop does not complete (so `markAllAsRead` leaves its state alone). */
  lemma ThirdOfFiveUpdatesThrows()
    ensures SequentialMarkReads(c => c != 3, 1, ["n1", "n2", "n3", "n4", "n5"])
            == [MarkReadCall("n1"), MarkReadCall("n2"), MarkReadCall("n3")]
    ensures !Completes(c => c != 3, 1, 5)
  {
    var ids: seq<NotificationId> := ["n1", "n2", "n3", "n4", "n5"];
    SequentialMarkReadsStop(c => c != 3, 1, ids, 2);
    assert ids[..3] == ["n1", "n2", "n3"];
  }

  class Store {
    /** Every call issued so far, oldest first. */
    var calls: seq<StoreCall>
    /** Whether the call numbered `k` (0-based, over the whole log) returns normally. */
    const succeeds: nat -> bool
    /** What the call numbered `k` returns when it is a fetch that succeeds. */
    const rows: nat -> seq<Notification>

    constructor (succeeds: nat -> bool, rows: nat -> seq<Notification>)
      ensures calls == [] && this.succeeds == succeeds && this.rows == rows
    {
      this.calls := [];
      this.succeeds := succeeds;
      this.rows := rows;
    }

    /** `Notification.filter({user_id: userId}, sortKey, limit)`. */
    method Filter(userId: UserId, sortKey: string, limit: nat) returns (r: Option<seq<Notification>>)
      modifies this
      ensures calls == old(calls) + [FilterCall(userId, sortKey, limit)]
      ensures r.Some? <==> succeeds(|old(calls)|)
      ensures r.Some? ==> r.value == rows(|old(calls)|)
    {
      r := if succeeds(|calls|) then Some(rows(|calls|)) else None;
      calls := calls + [FilterCall(userId, sortKey, limit)];
    }

    /** `Notification.update(id, {read: true})`; `ok` is false when it throws. */
    method MarkRead(id: NotificationId) returns (ok: bool)
      modifies this
      ensures calls == old(calls) + [MarkReadCall(id)]
      ensures ok == succeeds(|old(calls)|)
    {
      ok := succeeds(|calls|);
      calls := calls + [MarkReadCall(id)];
    }

    /** `User.updateMyUserData({preferences})`; `ok` is false when it throws. */
    method SavePreferences(preferences: Prefs) returns (ok: bool)
      modifies this
      ensures calls == old(calls) + [SavePreferencesCall(preferences)]
      ensures ok == succeeds(|old(calls)|)
    {
      ok := succeeds(|calls|);
      calls := calls + [SavePreferencesCall(preferences)];
    }
  }
}
