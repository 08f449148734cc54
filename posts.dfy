/** Community posts: creation (always pending), the like/dislike toggles,
    the listing of accepted posts, the admin's bulk accept/reject actions,
    and the `post_save` receiver that notifies a post's author when the
    post is saved as accepted or rejected. */
module Posts {
  import opened Common
  import Notifications

  /** A row of the Post table with its two many-to-many user sets
      (`created_at` is left out). */
  datatype Post = Post(
    title: string,
    content: string,
    author: UserId,
    status: Status,
    likes: set<UserId>,
    dislikes: set<UserId>)

  /** The identifying fields of an answer (`author` and `created_at` are
      left out; `author_id` is kept). */
  datatype Summary = Summary(id: nat, title: string, content: string, authorId: UserId)

  /** What `like_post`, `dislike_post` and `list_posts` compute for a post,
      as seen by `user`. */
  datatype PostOut = PostOut(
    summary: Summary,
    likesCount: nat,
    dislikesCount: nat,
    isLiked: bool,
    isDisliked: bool)

  function SummaryOf(id: nat, p: Post): Summary {
    Summary(id, p.title, p.content, p.author)
  }

  /** The view of post `id` for `user`, counts and flags taken from the
      current sets. */
  function View(id: nat, p: Post, user: UserId): (o: PostOut)
    ensures o.summary.id == id && o.summary.authorId == p.author
    ensures o.isLiked <==> user in p.likes
    ensures o.isDisliked <==> user in p.dislikes
    ensures o.likesCount == |p.likes| && o.dislikesCount == |p.dislikes|
  {
    PostOut(SummaryOf(id, p), |p.likes|, |p.dislikes|, user in p.likes, user in p.dislikes)
  }

  /** What the response schema in use serializes of a view: it declares
      only the post's identifying fields, so the counts and flags the view
      computes are dropped on the way out. */
  function Sent(o: PostOut): (r: Summary)
    ensures r.id == o.summary.id && r.authorId == o.summary.authorId
    ensures r.title == o.summary.title && r.content == o.summary.content
  {
    o.summary
  }

  // ---------------------------------------------------------------------
  // Reactions
  // ---------------------------------------------------------------------

  /** `like_post` on one post: drop `user` from the dislikes, then toggle
      `user` in the likes. Nothing else about the post changes. */
  function Like(p: Post, user: UserId): (r: Post)
    ensures user !in r.dislikes
    ensures user in r.likes <==> user !in p.likes
    ensures forall v :: v != user ==> (v in r.likes <==> v in p.likes) && (v in r.dislikes <==> v in p.dislikes)
    ensures r.title == p.title && r.content == p.content && r.author == p.author && r.status == p.status
  {
    var p' := p.(dislikes := p.dislikes - {user});
    if user in p'.likes then p'.(likes := p'.likes - {user}) else p'.(likes := p'.likes + {user})
  }

  /** `dislike_post`, the mirror image: drop `user` from the likes, then
      toggle `user` in the dislikes. */
  function Dislike(p: Post, user: UserId): (r: Post)
    ensures user !in r.likes
    ensures user in r.dislikes <==> user !in p.dislikes
    ensures forall v :: v != user ==> (v in r.likes <==> v in p.likes) && (v in r.dislikes <==> v in p.dislikes)
    ensures r.title == p.title && r.content == p.content && r.author == p.author && r.status == p.status
  {
    var p' := p.(likes := p.likes - {user});
    if user in p'.dislikes then p'.(dislikes := p'.dislikes - {user}) else p'.(dislikes := p'.dislikes + {user})
  }

  /** No user both likes and dislikes the post. */
  predicate Exclusive(p: Post) {
    p.likes !! p.dislikes
  }

  /** Both toggles keep the sets disjoint; the acting user ends up in at
      most one of them whatever the sets held before. */
  lemma ReactionsExclusive(p: Post, user: UserId)
    ensures !(user in Like(p, user).likes && user in Like(p, user).dislikes)
    ensures !(user in Dislike(p, user).likes && user in Dislike(p, user).dislikes)
    ensures Exclusive(p) ==> Exclusive(Like(p, user)) && Exclusive(Dislike(p, user))
  {
    if Exclusive(p) {
      forall v | v in Like(p, user).likes
        ensures v !in Like(p, user).dislikes
      {
        if v != user {
          assert v in p.likes;
        }
      }
      forall v | v in Dislike(p, user).dislikes
        ensures v !in Dislike(p, user).likes
      {
        if v != user {
          assert v in p.dislikes;
        }
      }
    }
  }

  /** Liking twice restores the likes, and leaves the user out of the dislikes. */
  lemma LikeTwice(p: Post, user: UserId)
    ensures Like(Like(p, user), user) == p.(dislikes := p.dislikes - {user})
  {
    var twice := Like(Like(p, user), user);
    assert twice.likes == p.likes;
    assert twice.dislikes == p.dislikes - {user};
  }

  /** As serialized, a like cannot be seen: the answer to `like_post` is
      the same whether the toggle added or removed the caller, although the
      view the endpoint computed differs in `isLiked`. */
  lemma LikeNotSent(id: nat, p: Post, user: UserId)
    ensures Sent(View(id, Like(p, user), user)) == Sent(View(id, p, user))
    ensures View(id, Like(p, user), user).isLiked != View(id, p, user).isLiked
  {
  }

  // ---------------------------------------------------------------------
  // The post_save receiver
  // ---------------------------------------------------------------------

  /** The opening of both messages, naming the post. */
  function MessageLead(title: string): string {
    "Postarea ta \"" + title + "\" a fost "
  }

  /** The message the receiver sends for a post saved with `status`: none
      for a pending post, otherwise one naming the post's title. */
  function StatusMessage(title: string, status: Status): (m: Option<string>)
    ensures m.None? <==> status == Pending
    ensures m.Some? ==> MessageLead(title) <= m.value
  {
    match status
    case Rejected => Some(MessageLead(title) + "respinsă.")
    case Accepted => Some(MessageLead(title) + "acceptată.")
    case Pending => None
  }

  /** The rows the receiver inserts when post `p` is saved: one unread
      notification for the author when the post is accepted or rejected,
      none otherwise. The receiver does not look at the previous status. */
  function SaveNotes(p: Post): (notes: seq<Notifications.Notification>)
    ensures |notes| == if p.status == Pending then 0 else 1
    ensures forall k :: 0 <= k < |notes| ==>
      && notes[k].user == p.author
      && !notes[k].isRead
      && Some(notes[k].message) == StatusMessage(p.title, p.status)
  {
    match StatusMessage(p.title, p.status)
    case Some(m) => [Notifications.Notification(p.author, m, false)]
    case None => []
  }

  /** The `post_save` receiver, run on every save of `instance`: it inserts
      the notifications of `SaveNotes` for the post as saved. */
  method PostStatusUpdate(instance: Post, inbox: Notifications.Inbox)
    modifies inbox
    ensures inbox.rows == old(inbox.rows) + SaveNotes(instance)
  {
    if instance.status == Rejected || instance.status == Accepted {
      var message := StatusMessage(instance.title, instance.status);
      var _ := inbox.Create(instance.author, message.value);
    }
  }

  // ---------------------------------------------------------------------
  // Bulk moderation
  // ---------------------------------------------------------------------

  /** The table after the loop of an admin action has set `status` on the
      first n posts of `selection`, one after the other. */
  function SetStatusFirst(rows: map<nat, Post>, selection: seq<nat>, n: nat, status: Status): (r: map<nat, Post>)
    requires n <= |selection|
    requires forall i :: 0 <= i < |selection| ==> selection[i] in rows
    ensures r.Keys == rows.Keys
  {
    if n == 0 then rows
    else
      var before := SetStatusFirst(rows, selection, n - 1, status);
      before[selection[n - 1] := before[selection[n - 1]].(status := status)]
  }

  /** The table after the whole action: a selected post takes `status`
      and keeps everything else; an unselected one is unchanged. */
  function SetStatus(rows: map<nat, Post>, selection: seq<nat>, status: Status): (r: map<nat, Post>)
    requires forall i :: 0 <= i < |selection| ==> selection[i] in rows
    ensures r.Keys == rows.Keys
    ensures forall id :: id in rows ==>
      r[id] == if id in selection then rows[id].(status := status) else rows[id]
  {
    assert selection[..|selection|] == selection;
    assert forall id :: id in rows ==>
      SetStatusFirst(rows, selection, |selection|, status)[id] ==
        if id in selection then rows[id].(status := status) else rows[id]
    by {
      forall id | id in rows
        ensures SetStatusFirst(rows, selection, |selection|, status)[id] ==
          if id in selection then rows[id].(status := status) else rows[id]
      {
        SetStatusFirstAt(rows, selection, |selection|, status, id);
      }
    }
    SetStatusFirst(rows, selection, |selection|, status)
  }

  /** After n steps, a post among the first n selected takes `status` and
      keeps everything else; any other post is unchanged. */
  lemma {:induction false} SetStatusFirstAt(rows: map<nat, Post>, selection: seq<nat>, n: nat, status: Status, id: nat)
    requires n <= |selection|
    requires forall i :: 0 <= i < |selection| ==> selection[i] in rows
    requires id in rows
    ensures SetStatusFirst(rows, selection, n, status)[id] ==
      if id in selection[..n] then rows[id].(status := status) else rows[id]
  {
    if n > 0 {
      SetStatusFirstAt(rows, selection, n - 1, status, id);
      assert selection[..n] == selection[..n - 1] + [selection[n - 1]];
    }
  }

  /** Of two actions on the same selection the later one decides. */
  lemma LastActionWins(rows: map<nat, Post>, selection: seq<nat>, first: Status, second: Status)
    requires forall i :: 0 <= i < |selection| ==> selection[i] in rows
    ensures SetStatus(SetStatus(rows, selection, first), selection, second) == SetStatus(rows, selection, second)
  {
    var once := SetStatus(rows, selection, first);
    assert forall i :: 0 <= i < |selection| ==> selection[i] in once;
    var twice := SetStatus(once, selection, second);
    var direct := SetStatus(rows, selection, second);
    forall id | id in rows
      ensures twice[id] == direct[id]
    {
      assert id in once;
      if id in selection {
        assert twice[id] == once[id].(status := second);
        assert once[id] == rows[id].(status := first);
      } else {
        assert twice[id] == once[id] == rows[id];
      }
    }
    assert twice.Keys == direct.Keys;
    assert twice == direct;
  }

  /** Applying the same action twice is applying it once. */
  lemma ActionIdempotent(rows: map<nat, Post>, selection: seq<nat>, status: Status)
    requires forall i :: 0 <= i < |selection| ==> selection[i] in rows
    ensures SetStatus(SetStatus(rows, selection, status), selection, status) == SetStatus(rows, selection, status)
  {
    LastActionWins(rows, selection, status, status);
  }

  /** The notifications the saves of the first n steps insert, in selection
      order; each save sees its post as it stands after its own step. */
  function ActionNotesFirst(rows: map<nat, Post>, selection: seq<nat>, n: nat, status: Status): seq<Notifications.Notification>
    requires n <= |selection|
    requires forall i :: 0 <= i < |selection| ==> selection[i] in rows
  {
    if n == 0 then []
    else
      ActionNotesFirst(rows, selection, n - 1, status)
        + SaveNotes(SetStatusFirst(rows, selection, n, status)[selection[n - 1]])
  }

  /** The notifications the saves of the whole action insert: accepting
      (or rejecting) n posts inserts n notifications, the i-th one for the
      author of the i-th selected post, carrying its title. */
  function ActionNotes(rows: map<nat, Post>, selection: seq<nat>, status: Status): (notes: seq<Notifications.Notification>)
    requires forall i :: 0 <= i < |selection| ==> selection[i] in rows
    ensures status != Pending ==> |notes| == |selection|
    ensures status != Pending ==> forall i :: 0 <= i < |selection| ==>
      notes[i] == Notifications.Notification(rows[selection[i]].author,
        StatusMessage(rows[selection[i]].title, status).value, false)
  {
    var notes := ActionNotesFirst(rows, selection, |selection|, status);
    assert status != Pending ==> |notes| == |selection| && forall i :: 0 <= i < |selection| ==>
      notes[i] == Notifications.Notification(rows[selection[i]].author,
        StatusMessage(rows[selection[i]].title, status).value, false)
    by {
      if status != Pending {
        ActionNotesFirstLength(rows, selection, |selection|, status);
        forall i | 0 <= i < |selection|
          ensures notes[i] == Notifications.Notification(rows[selection[i]].author,
            StatusMessage(rows[selection[i]].title, status).value, false)
        {
          ActionNoteAt(rows, selection, |selection|, status, i);
        }
      }
    }
    notes
  }

  /** Step i + 1 of an action saves the i-th selected post with the new
      status and adds that save's notifications. */
  lemma ModerationStep(rows: map<nat, Post>, selection: seq<nat>, i: nat, status: Status,
                        earlier: seq<Notifications.Notification>)
    requires i < |selection|
    requires forall j :: 0 <= j < |selection| ==> selection[j] in rows
    ensures var before := SetStatusFirst(rows, selection, i, status);
      var saved := before[selection[i]].(status := status);
      && SetStatusFirst(rows, selection, i + 1, status) == before[selection[i] := saved]
      && ActionNotesFirst(rows, selection, i + 1, status) ==
           ActionNotesFirst(rows, selection, i, status) + SaveNotes(saved)
      && earlier + ActionNotesFirst(rows, selection, i + 1, status) ==
           earlier + ActionNotesFirst(rows, selection, i, status) + SaveNotes(saved)
  {
    var before := SetStatusFirst(rows, selection, i, status);
    AppendAssoc(earlier, ActionNotesFirst(rows, selection, i, status), SaveNotes(before[selection[i]].(status := status)));
  }

  /** Each step of an accept or reject action adds one notification. */
  lemma {:induction false} ActionNotesFirstLength(rows: map<nat, Post>, selection: seq<nat>, n: nat, status: Status)
    requires n <= |selection|
    requires forall i :: 0 <= i < |selection| ==> selection[i] in rows
    requires status != Pending
    ensures |ActionNotesFirst(rows, selection, n, status)| == n
  {
    if n > 0 {
      ActionNotesFirstLength(rows, selection, n - 1, status);
    }
  }

  /** The i-th notification of the first n steps is the one for the i-th
      selected post. */
  lemma {:induction false} ActionNoteAt(rows: map<nat, Post>, selection: seq<nat>, n: nat, status: Status, i: nat)
    requires i < n <= |selection|
    requires forall j :: 0 <= j < |selection| ==> selection[j] in rows
    requires status != Pending
    ensures |ActionNotesFirst(rows, selection, n, status)| == n
    ensures ActionNotesFirst(rows, selection, n, status)[i] ==
      Notifications.Notification(rows[selection[i]].author,
        StatusMessage(rows[selection[i]].title, status).value, false)
  {
    ActionNotesFirstLength(rows, selection, n, status);
    ActionNotesFirstLength(rows, selection, n - 1, status);
    if i < n - 1 {
      ActionNoteAt(rows, selection, n - 1, status, i);
    } else {
      SetStatusFirstAt(rows, selection, n, status, selection[i]);
      assert selection[i] in selection[..n];
    }
  }

  // ---------------------------------------------------------------------
  // The Post table
  // ---------------------------------------------------------------------

  class PostTable {
    var posts: map<nat, Post>
    var nextId: nat

    /** Ids are handed out in increasing order from 1. */
    ghost predicate Valid()
      reads this
    {
      1 <= nextId && forall id :: id in posts ==> 1 <= id < nextId
    }

    constructor()
      ensures Valid() && posts == map[]
    {
      posts := map[];
      nextId := 1;
    }

    /** `create_post`: inserts a pending post with no reactions; the save
        sends no notification. */
    method CreatePost(author: UserId, title: string, content: string, inbox: Notifications.Inbox)
      returns (reply: Reply<Summary>)
      requires Valid()
      modifies this, inbox
      ensures Valid()
      ensures old(nextId) !in old(posts)
      ensures posts == old(posts)[old(nextId) := Post(title, content, author, Pending, {}, {})]
      ensures reply == Ok(201, Summary(old(nextId), title, content, author))
      ensures inbox.rows == old(inbox.rows)
    {
      var id := nextId;
      posts := posts[id := Post(title, content, author, Pending, {}, {})];
      nextId := nextId + 1;
      PostStatusUpdate(posts[id], inbox);
      reply := Ok(201, SummaryOf(id, posts[id]));
    }

    /** `like_post`: 404 for an unknown post; otherwise the toggle, and the
        post as the caller now sees it. */
    method LikePost(id: nat, user: UserId) returns (reply: Reply<PostOut>)
      requires Valid()
      modifies this
      ensures Valid()
      ensures nextId == old(nextId)
      ensures id !in old(posts) ==> reply == NotFound && posts == old(posts)
      ensures id in old(posts) ==>
        && posts == old(posts)[id := Like(old(posts)[id], user)]
        && reply == Ok(200, View(id, posts[id], user))
        && (reply.body.isLiked <==> user !in old(posts)[id].likes)
        && !reply.body.isDisliked
    {
      if id !in posts {
        return NotFound;
      }
      posts := posts[id := Like(posts[id], user)];
      reply := Ok(200, View(id, posts[id], user));
    }

    /** `dislike_post`: the mirror image of `like_post`. */
    method DislikePost(id: nat, user: UserId) returns (reply: Reply<PostOut>)
      requires Valid()
      modifies this
      ensures Valid()
      ensures nextId == old(nextId)
      ensures id !in old(posts) ==> reply == NotFound && posts == old(posts)
      ensures id in old(posts) ==>
        && posts == old(posts)[id := Dislike(old(posts)[id], user)]
        && reply == Ok(200, View(id, posts[id], user))
        && (reply.body.isDisliked <==> user !in old(posts)[id].dislikes)
        && !reply.body.isLiked
    {
      if id !in posts {
        return NotFound;
      }
      posts := posts[id := Dislike(posts[id], user)];
      reply := Ok(200, View(id, posts[id], user));
    }

    /** `list_posts`: the accepted posts as `user` sees them (the query has
        no ordering, so the listing is a set). A post is listed exactly
        when it is accepted, under its own id and with its own view. */
    function ListPosts(user: UserId): (listed: set<PostOut>)
      reads this
      ensures forall o :: o in listed ==>
        o.summary.id in posts && posts[o.summary.id].status == Accepted && o == View(o.summary.id, posts[o.summary.id], user)
      ensures forall id :: id in posts && posts[id].status == Accepted ==> View(id, posts[id], user) in listed
    {
      ListedIffAccepted(posts, user);
      AcceptedViews(posts, user)
    }

    /** `accept_posts`: every selected post is set to ACCEPTED and saved. */
    method AcceptPosts(selection: seq<nat>, inbox: Notifications.Inbox)
      requires Valid()
      requires forall i :: 0 <= i < |selection| ==> selection[i] in posts
      modifies this, inbox
      ensures Valid()
      ensures nextId == old(nextId)
      ensures posts == SetStatus(old(posts), selection, Accepted)
      ensures inbox.rows == old(inbox.rows) + ActionNotes(old(posts), selection, Accepted)
    {
      Moderate(selection, Accepted, inbox);
    }

    /** `reject_posts`: every selected post is set to REJECTED and saved. */
    method RejectPosts(selection: seq<nat>, inbox: Notifications.Inbox)
      requires Valid()
      requires forall i :: 0 <= i < |selection| ==> selection[i] in posts
      modifies this, inbox
      ensures Valid()
      ensures nextId == old(nextId)
      ensures posts == SetStatus(old(posts), selection, Rejected)
      ensures inbox.rows == old(inbox.rows) + ActionNotes(old(posts), selection, Rejected)
    {
      Moderate(selection, Rejected, inbox);
    }

    /** One step of an action: `post.status = status; post.save()`. The
        row takes the new status and the post_save receiver runs on it. */
    method SetStatusAndSave(id: nat, status: Status, inbox: Notifications.Inbox)
      requires id in posts
      modifies this, inbox
      ensures nextId == old(nextId)
      ensures posts == old(posts)[id := old(posts)[id].(status := status)]
      ensures inbox.rows == old(inbox.rows) + SaveNotes(old(posts)[id].(status := status))
    {
      var updated := posts[id].(status := status);
      posts := posts[id := updated];
      PostStatusUpdate(updated, inbox);
    }

    /** Step i + 1 of an action: after the first i selected posts were
        saved, saving the i-th one gives the state after i + 1 steps. */
    method ModerateNext(selection: seq<nat>, i: nat, status: Status, inbox: Notifications.Inbox,
                        ghost rows0: map<nat, Post>, ghost notes0: seq<Notifications.Notification>)
      requires i < |selection|
      requires forall j :: 0 <= j < |selection| ==> selection[j] in rows0
      requires posts == SetStatusFirst(rows0, selection, i, status)
      requires inbox.rows == notes0 + ActionNotesFirst(rows0, selection, i, status)
      modifies this, inbox
      ensures nextId == old(nextId)
      ensures posts == SetStatusFirst(rows0, selection, i + 1, status)
      ensures inbox.rows == notes0 + ActionNotesFirst(rows0, selection, i + 1, status)
    {
      ModerationStep(rows0, selection, i, status, notes0);
      SetStatusAndSave(selection[i], status, inbox);
    }

    /** The loop both actions share: for each selected post in order, set
        the status and save. */
    method Moderate(selection: seq<nat>, status: Status, inbox: Notifications.Inbox)
      requires forall i :: 0 <= i < |selection| ==> selection[i] in posts
      modifies this, inbox
      ensures nextId == old(nextId)
      ensures posts == SetStatusFirst(old(posts), selection, |selection|, status)
      ensures inbox.rows == old(inbox.rows) + ActionNotesFirst(old(posts), selection, |selection|, status)
    {
      ghost var rows0, notes0 := posts, inbox.rows;
      var i := 0;
      while i < |selection|
        invariant 0 <= i <= |selection|
        invariant nextId == old(nextId)
        invariant posts == SetStatusFirst(rows0, selection, i, status)
        invariant inbox.rows == notes0 + ActionNotesFirst(rows0, selection, i, status)
      {
        ModerateNext(selection, i, status, inbox, rows0, notes0);
        i := i + 1;
      }
    }
  }

  /** The views of the accepted posts of `rows`. */
  function AcceptedViews(rows: map<nat, Post>, user: UserId): set<PostOut> {
    set id | id in rows && rows[id].status == Accepted :: View(id, rows[id], user)
  }

  /** A post is listed exactly when it is accepted: every listed item is the
      view of an accepted post under its own id, and every accepted post is
      listed. */
  lemma ListedIffAccepted(rows: map<nat, Post>, user: UserId)
    ensures forall o :: o in AcceptedViews(rows, user) ==>
      o.summary.id in rows && rows[o.summary.id].status == Accepted && o == View(o.summary.id, rows[o.summary.id], user)
    ensures forall id :: id in rows && rows[id].status == Accepted ==> View(id, rows[id], user) in AcceptedViews(rows, user)
  {
  }

  /** What `list_posts` sends: the view of each accepted post as the
      response schema serializes it. */
  function SentListing(rows: map<nat, Post>, user: UserId): set<Summary> {
    set id | id in rows && rows[id].status == Accepted :: Sent(View(id, rows[id], user))
  }

  /** As serialized, the listing cannot show a like either: after the
      caller likes an accepted post, `list_posts` sends the same items,
      although the view it computed for that post differs in `isLiked`. */
  lemma ListedLikeNotSent(rows: map<nat, Post>, id: nat, user: UserId)
    requires id in rows && rows[id].status == Accepted
    ensures SentListing(rows[id := Like(rows[id], user)], user) == SentListing(rows, user)
    ensures View(id, Like(rows[id], user), user).isLiked != View(id, rows[id], user).isLiked
  {
    var liked := rows[id := Like(rows[id], user)];
    forall k | k in rows
      ensures liked[k].status == rows[k].status
      ensures Sent(View(k, liked[k], user)) == Sent(View(k, rows[k], user))
    {
    }
    assert SentListing(liked, user) == SentListing(rows, user);
  }

  /** A post just created is pending, so it is not listed until accepted. */
  lemma NewPostNotListed(rows: map<nat, Post>, id: nat, p: Post, user: UserId)
    requires p.status == Pending
    ensures forall o :: o in AcceptedViews(rows[id := p], user) ==> o.summary.id != id
  {
    ListedIffAccepted(rows[id := p], user);
  }
}
