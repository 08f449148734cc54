/** The notification inbox: an append-only table of messages addressed to
    users, each with a read flag. Users list their unread notifications and
    mark single notifications as read. Row ids are positions plus one, in
    insertion order, the way the database assigns primary keys. */
module Notifications {
  import opened Common

  /** One row of the Notification table (`created_at` is left out). */
  datatype Notification = Notification(user: UserId, message: string, isRead: bool)

  /** One item of the listing (NotificationSchema without `created_at`). */
  datatype Listed = Listed(id: int, message: string, isRead: bool)

  /** Notification `id` exists and belongs to `user`. */
  predicate Owned(rows: seq<Notification>, id: int, user: UserId) {
    1 <= id <= |rows| && rows[id - 1].user == user
  }

  /** The listing of `user`'s unread notifications among the first `n` rows,
      in id order: at most one item per row, each an unread one. */
  function Unread(rows: seq<Notification>, user: UserId, n: nat): (l: seq<Listed>)
    requires n <= |rows|
    ensures |l| <= n
    ensures forall k :: 0 <= k < |l| ==> 1 <= l[k].id <= n && !l[k].isRead
  {
    if n == 0 then []
    else
      var row := rows[n - 1];
      Unread(rows, user, n - 1) + (if row.user == user && !row.isRead then [Listed(n, row.message, false)] else [])
  }

  /** Every listed item is an unread notification of `user`, shown with its
      own id and message. */
  lemma {:induction false} UnreadSound(rows: seq<Notification>, user: UserId, n: nat)
    requires n <= |rows|
    ensures forall k :: 0 <= k < |Unread(rows, user, n)| ==>
      && 1 <= Unread(rows, user, n)[k].id <= n
      && rows[Unread(rows, user, n)[k].id - 1].user == user
      && !rows[Unread(rows, user, n)[k].id - 1].isRead
      && Unread(rows, user, n)[k] ==
           Listed(Unread(rows, user, n)[k].id, rows[Unread(rows, user, n)[k].id - 1].message, false)
  {
    if n > 0 {
      UnreadSound(rows, user, n - 1);
      var prev := Unread(rows, user, n - 1);
      var row := rows[n - 1];
      var l := Unread(rows, user, n);
      assert l == prev + (if row.user == user && !row.isRead then [Listed(n, row.message, false)] else []);
      forall k | 0 <= k < |l|
        ensures 1 <= l[k].id <= n && rows[l[k].id - 1].user == user && !rows[l[k].id - 1].isRead
        ensures l[k] == Listed(l[k].id, rows[l[k].id - 1].message, false)
      {
        if k < |prev| {
          assert l[k] == prev[k];
        } else {
          assert l[k] == Listed(n, row.message, false);
        }
      }
    }
  }

  /** Every unread notification of `user` is listed. */
  lemma {:induction false} UnreadComplete(rows: seq<Notification>, user: UserId, n: nat)
    requires n <= |rows|
    ensures forall j :: 0 <= j < n && rows[j].user == user && !rows[j].isRead ==>
      Listed(j + 1, rows[j].message, false) in Unread(rows, user, n)
  {
    if n > 0 {
      UnreadComplete(rows, user, n - 1);
      var prev := Unread(rows, user, n - 1);
      var l := Unread(rows, user, n);
      assert forall it :: it in prev ==> it in l;
    }
  }

  /** The listing is in id order. */
  lemma {:induction false} UnreadOrdered(rows: seq<Notification>, user: UserId, n: nat)
    requires n <= |rows|
    ensures forall a, b :: 0 <= a < b < |Unread(rows, user, n)| ==>
      Unread(rows, user, n)[a].id < Unread(rows, user, n)[b].id
  {
    if n > 0 {
      UnreadOrdered(rows, user, n - 1);
      UnreadSound(rows, user, n - 1);
      var prev := Unread(rows, user, n - 1);
      var row := rows[n - 1];
      var l := Unread(rows, user, n);
      assert l == prev + (if row.user == user && !row.isRead then [Listed(n, row.message, false)] else []);
      forall a, b | 0 <= a < b < |l|
        ensures l[a].id < l[b].id
      {
        assert l[a] == prev[a];
        if b < |prev| {
          assert l[b] == prev[b];
        } else {
          assert l[b] == Listed(n, row.message, false);
        }
      }
    }
  }

  /** The table after `mark_as_read(id)` by `caller`: marking touches at
      most the one owned row, and only its read flag; a missing or foreign
      id changes nothing. */
  function MarkRead(rows: seq<Notification>, caller: UserId, id: int): (after: seq<Notification>)
    ensures |after| == |rows|
    ensures forall j :: 0 <= j < |rows| && j != id - 1 ==> after[j] == rows[j]
    ensures Owned(rows, id, caller) ==> after[id - 1] == rows[id - 1].(isRead := true)
    ensures !Owned(rows, id, caller) ==> after == rows
  {
    if Owned(rows, id, caller) then rows[id - 1 := rows[id - 1].(isRead := true)] else rows
  }

  lemma MarkReadIdempotent(rows: seq<Notification>, caller: UserId, id: int)
    ensures MarkRead(MarkRead(rows, caller, id), caller, id) == MarkRead(rows, caller, id)
  {
    if Owned(rows, id, caller) {
      var once := MarkRead(rows, caller, id);
      assert once[id - 1 := once[id - 1].(isRead := true)] == once;
    }
  }

  /** Once marked, a notification is no longer listed, while every other
      listed item of the caller stays listed. */
  lemma MarkedNotListed(rows: seq<Notification>, caller: UserId, id: int)
    requires Owned(rows, id, caller)
    ensures forall it :: it in Unread(MarkRead(rows, caller, id), caller, |rows|) ==> it.id != id
    ensures forall it :: it in Unread(rows, caller, |rows|) && it.id != id ==>
      it in Unread(MarkRead(rows, caller, id), caller, |rows|)
  {
    var after := MarkRead(rows, caller, id);
    UnreadSound(after, caller, |rows|);
    UnreadSound(rows, caller, |rows|);
    UnreadComplete(after, caller, |rows|);
    var l := Unread(rows, caller, |rows|);
    forall it | it in l && it.id != id
      ensures it in Unread(after, caller, |rows|)
    {
      var k :| 0 <= k < |l| && l[k] == it;
      assert after[it.id - 1] == rows[it.id - 1];
      assert it == Listed(it.id, after[it.id - 1].message, false);
      assert Listed((it.id - 1) + 1, after[it.id - 1].message, false) in Unread(after, caller, |rows|);
    }
  }

  /** Another user's listing does not change when someone marks a notification. */
  lemma {:induction false} MarkReadKeepsOthers(rows: seq<Notification>, caller: UserId, id: int, other: UserId, n: nat)
    requires other != caller && n <= |rows|
    ensures Unread(MarkRead(rows, caller, id), other, n) == Unread(rows, other, n)
  {
    if n > 0 {
      MarkReadKeepsOthers(rows, caller, id, other, n - 1);
    }
  }

  /** The Notification table. */
  class Inbox {
    var rows: seq<Notification>

    constructor()
      ensures rows == []
    {
      rows := [];
    }

    /** `Notification.objects.create(user=..., message=...)`: appends an
        unread row and returns its id. */
    method Create(user: UserId, message: string) returns (id: int)
      modifies this
      ensures rows == old(rows) + [Notification(user, message, false)]
      ensures id == |rows| && Owned(rows, id, user)
    {
      rows := rows + [Notification(user, message, false)];
      id := |rows|;
    }

    /** `list_notifications`: the caller's unread notifications, each
        listed with its own id and message, and all of them. */
    function ListNotifications(caller: UserId): (l: seq<Listed>)
      reads this
      ensures forall it :: it in l ==>
        Owned(rows, it.id, caller) && !rows[it.id - 1].isRead && it == Listed(it.id, rows[it.id - 1].message, false)
      ensures forall j :: 0 <= j < |rows| && rows[j].user == caller && !rows[j].isRead ==>
        Listed(j + 1, rows[j].message, false) in l
    {
      UnreadSound(rows, caller, |rows|);
      UnreadComplete(rows, caller, |rows|);
      Unread(rows, caller, |rows|)
    }

    /** `mark_as_read`: 404 unless the notification exists and belongs to
        the caller; otherwise it is flagged read and the reply is success. */
    method MarkAsRead(caller: UserId, id: int) returns (reply: Reply<bool>)
      modifies this
      ensures rows == MarkRead(old(rows), caller, id)
      ensures reply == if Owned(old(rows), id, caller) then Ok(200, true) else NotFound
    {
      if 1 <= id <= |rows| && rows[id - 1].user == caller {
        rows := rows[id - 1 := rows[id - 1].(isRead := true)];
        reply := Ok(200, true);
      } else {
        reply := NotFound;
      }
    }
  }
}
