/**
 * Notification records as the layout holds them, and the pure list
 * expressions it evaluates over them: the unread filter and its length,
 * the "mark one read" map and the "mark all read" map.
 */
module Notifications {

  type NotificationId = string
  type UserId = string

  /** A Notification record. `payload` stands for every field the layout
      never inspects (title, message, kind, ...). */
  datatype Notification = Notification(
    id: NotificationId,
    userId: UserId,
    read: bool,
    payload: string,
    createdDate: int)

  /** `notifications.filter(n => !n.read)`: the unread entries, in list order. */
  function Unread(ns: seq<Notification>): (r: seq<Notification>)
    ensures |r| <= |ns|
    ensures ns == [] ==> r == []
    ensures forall n :: n in r <==> n in ns && !n.read
  {
    if ns == [] then []
    else (if !ns[0].read then [ns[0]] else []) + Unread(ns[1..])
  }

  /** `notifications.filter(n => !n.read).length`. */
  function UnreadCount(ns: seq<Notification>): (c: nat)
    ensures c <= |ns|
    ensures ns == [] ==> c == 0
    ensures |ns| == 1 ==> c == (if ns[0].read then 0 else 1)
    ensures c == 0 <==> forall i :: 0 <= i < |ns| ==> ns[i].read
  {
    var r := Unread(ns);
    assert r != [] ==> r[0] in r;
    assert forall i :: 0 <= i < |ns| && !ns[i].read ==> ns[i] in r;
    |r|
  }

  /** How many unread entries carry the id `id`. */
  function UnreadWithId(ns: seq<Notification>, id: NotificationId): (k: nat)
    ensures k <= UnreadCount(ns)
    ensures k == 0 <==> forall i :: 0 <= i < |ns| && ns[i].id == id ==> ns[i].read
  {
    if ns == [] then 0
    else
      assert ns == [ns[0]] + ns[1..];
      (if ns[0].id == id && !ns[0].read then 1 else 0) + UnreadWithId(ns[1..], id)
  }

  /** `notifications.map(n => n.id === id ? {...n, read: true} : n)`. */
  function MarkedRead(ns: seq<Notification>, id: NotificationId): (r: seq<Notification>)
    ensures |r| == |ns|
    ensures forall i :: 0 <= i < |ns| && ns[i].id == id ==> r[i] == ns[i].(read := true)
    ensures forall i :: 0 <= i < |ns| && ns[i].id != id ==> r[i] == ns[i]
  {
    if ns == [] then []
    else [if ns[0].id == id then ns[0].(read := true) else ns[0]] + MarkedRead(ns[1..], id)
  }

  /** `notifications.map(n => ({...n, read: true}))`. */
  function AllRead(ns: seq<Notification>): (r: seq<Notification>)
    ensures |r| == |ns|
    ensures forall i :: 0 <= i < |ns| ==> r[i] == ns[i].(read := true)
    ensures UnreadCount(r) == 0
  {
    if ns == [] then []
    else [ns[0].(read := true)] + AllRead(ns[1..])
  }

  /** The ids of a list of entries, in order. */
  function Ids(ns: seq<Notification>): (r: seq<NotificationId>)
    ensures |r| == |ns|
    ensures forall i :: 0 <= i < |ns| ==> r[i] == ns[i].id
  {
    if ns == [] then [] else [ns[0].id] + Ids(ns[1..])
  }

  /** The counter update `prev => Math.max(0, prev - 1)`. */
  function Decrement(count: nat): (r: nat)
    ensures count > 0 ==> r + 1 == count
    ensures count == 0 ==> r == 0
  {
    if count == 0 then 0 else count - 1
  }

  /** Concatenation is associative. */
  lemma AppendAssoc<T>(x: seq<T>, y: seq<T>, z: seq<T>)
    ensures x + (y + z) == (x + y) + z
  {
  }

  /** The filter on a list with one more entry in front. */
  lemma UnreadCons(n: Notification, rest: seq<Notification>)
    ensures Unread([n] + rest) == (if n.read then [] else [n]) + Unread(rest)
  {
    assert ([n] + rest)[1..] == rest;
  }

  /** A one-entry list keeps its entry exactly when it is unread. */
  lemma UnreadOne(n: Notification)
    ensures Unread([n]) == (if n.read then [] else [n])
  {
    assert [n][1..] == [];
  }

  /** The filter distributes over concatenation: together with `UnreadOne`
      and the empty case this fixes `Unread` as the unread entries in list
      order, each once. */
  lemma {:induction false} UnreadAppend(a: seq<Notification>, b: seq<Notification>)
    ensures Unread(a + b) == Unread(a) + Unread(b)
  {
    if a == [] {
      assert a + b == b;
    } else {
      var n, rest := a[0], a[1..];
      var h := if n.read then [] else [n];
      assert a == [n] + rest;
      assert a + b == [n] + (rest + b);
      calc {
        Unread(a + b);
        { UnreadCons(n, rest + b); }
        h + Unread(rest + b);
        { UnreadAppend(rest, b); }
        h + (Unread(rest) + Unread(b));
        { AppendAssoc(h, Unread(rest), Unread(b)); }
        (h + Unread(rest)) + Unread(b);
        { UnreadCons(n, rest); }
        Unread(a) + Unread(b);
      }
    }
  }

  /** The unread count is additive, so it is the number of entries with
      `read == false`: one per unread entry and none per read one. */
  lemma UnreadCountAppend(a: seq<Notification>, b: seq<Notification>)
    ensures UnreadCount(a + b) == UnreadCount(a) + UnreadCount(b)
  {
    UnreadAppend(a, b);
  }

  /** Marking one id read removes from the unread count exactly the
      unread entries carrying that id. */
  lemma {:induction false} MarkedReadUnreadCount(ns: seq<Notification>, id: NotificationId)
    ensures UnreadCount(MarkedRead(ns, id)) + UnreadWithId(ns, id) == UnreadCount(ns)
  {
    if ns != [] {
      MarkedReadUnreadCount(ns[1..], id);
      var m := MarkedRead(ns, id);
      assert m[1..] == MarkedRead(ns[1..], id);
      assert Unread(m) == (if !m[0].read then [m[0]] else []) + Unread(m[1..]);
      assert Unread(ns) == (if !ns[0].read then [ns[0]] else []) + Unread(ns[1..]);
    }
  }

  /** The decremented counter still equals the true unread count after
      marking `id` read exactly when one unread entry carried `id`, or
      when nothing was unread to begin with. */
  lemma MarkReadConsistentIff(ns: seq<Notification>, id: NotificationId)
    ensures Decrement(UnreadCount(ns)) == UnreadCount(MarkedRead(ns, id))
            <==> UnreadWithId(ns, id) == 1 || UnreadCount(ns) == 0
  {
    MarkedReadUnreadCount(ns, id);
  }

  /** Marking an id that no unread entry carries (absent, or already read)
      leaves the true count alone, so a positive counter ends one too low. */
  lemma MarkReadOfReadIdUndercounts(ns: seq<Notification>, id: NotificationId)
    requires UnreadWithId(ns, id) == 0
    requires UnreadCount(ns) > 0
    ensures MarkedRead(ns, id) == ns
    ensures Decrement(UnreadCount(ns)) + 1 == UnreadCount(MarkedRead(ns, id))
  {
    var m := MarkedRead(ns, id);
    assert forall i :: 0 <= i < |ns| ==> m[i] == ns[i];
  }

  /** Marking the same id twice gives the same list as marking it once. */
  lemma MarkedReadIdempotent(ns: seq<Notification>, id: NotificationId)
    ensures MarkedRead(MarkedRead(ns, id), id) == MarkedRead(ns, id)
  {
    var m := MarkedRead(ns, id);
    var mm := MarkedRead(m, id);
    assert forall i :: 0 <= i < |ns| ==> mm[i] == m[i];
  }

  /** Marking entries read never changes which ids appear, nor their order. */
  lemma MarkingKeepsIds(ns: seq<Notification>, id: NotificationId)
    ensures Ids(MarkedRead(ns, id)) == Ids(ns)
    ensures Ids(AllRead(ns)) == Ids(ns)
  {
    var a, b, c := Ids(MarkedRead(ns, id)), Ids(AllRead(ns)), Ids(ns);
    assert forall i :: 0 <= i < |ns| ==> a[i] == c[i] && b[i] == c[i];
  }

  /** On a list with nothing unread, marking everything read changes nothing. */
  lemma AllReadOfAllRead(ns: seq<Notification>)
    requires UnreadCount(ns) == 0
    ensures AllRead(ns) == ns
  {
    var r := AllRead(ns);
    assert forall i :: 0 <= i < |ns| ==> r[i] == ns[i];
  }

  /** On a list where nothing is read, the unread filter keeps every entry. */
  lemma {:induction false} UnreadOfNoneRead(ns: seq<Notification>)
    requires forall i :: 0 <= i < |ns| ==> !ns[i].read
    ensures Unread(ns) == ns
  {
    if ns != [] {
      UnreadOfNoneRead(ns[1..]);
      assert ns == [ns[0]] + ns[1..];
    }
  }

  /** The ids the mark-all loop visits are exactly the ids of the unread entries. */
  lemma {:induction false} UnreadIds(ns: seq<Notification>)
    ensures forall x :: x in Ids(Unread(ns)) <==> exists i :: 0 <= i < |ns| && !ns[i].read && ns[i].id == x
  {
    var u := Unread(ns);
    var ids := Ids(u);
    forall x | x in ids
      ensures exists i :: 0 <= i < |ns| && !ns[i].read && ns[i].id == x
    {
      var j :| 0 <= j < |ids| && ids[j] == x;
      assert u[j] in u;
      var i :| 0 <= i < |ns| && ns[i] == u[j];
    }
    forall x | exists i :: 0 <= i < |ns| && !ns[i].read && ns[i].id == x
      ensures x in ids
    {
      var i :| 0 <= i < |ns| && !ns[i].read && ns[i].id == x;
      assert ns[i] in u;
      var j :| 0 <= j < |u| && u[j] == ns[i];
      assert ids[j] == x;
    }
  }
}
