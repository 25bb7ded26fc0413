/**
 * The comment modal's state and handlers: the stored comments of the open
 * post, the pending (optimistic) comments, and the loading flag.
 *
 * A handler that changes state before the backend answers is split at its
 * first `await`: the start method is what runs when the user acts, the
 * settle method is the continuation that runs when the backend answers,
 * with the answer as a parameter. A handler whose state changes only after
 * the answer is one method taking the answer as a parameter. `fetchComments`
 * is its own method because the handlers fire it without waiting for it.
 */
module CommentModal {
  import opened Wrappers
  import opened CommentTree
  import Seqs
  import Text

  /** What reading the post document gives: a failure, or the document's `comments` field if it has one. */
  datatype PostRead = ReadFailed | PostDoc(comments: Option<seq<Comment>>)

  /** A nested reply whose write is outstanding. */
  datatype PendingReply = PendingReply(parent: Comment, text: string, replyId: string)

  /** How `addReply` started: ignored by its guard, posted at top level, or inserted under a parent. */
  datatype ReplyStart = Ignored | TopLevel | Nested(pending: PendingReply)

  /** The pending copy of a new top-level comment: marked optimistic, stamped with the id and the current user. */
  function OptimisticComment(newComment: Comment, author: Author, commentId: string, node: NodeId): (c: Comment)
    ensures c.isOptimistic && c.optimisticId == Some(commentId) && c.id == node
    ensures c.name == author.name && c.username == author.username
    ensures c.text == newComment.text && c.timestamp == newComment.timestamp
    ensures c.replies == newComment.replies && c.failed == newComment.failed
  {
    newComment.(id := node, isOptimistic := true, optimisticId := Some(commentId),
                name := author.name, username := author.username)
  }

  /** The reply record `addReply` builds: trimmed text, the current time, no replies. */
  function NewReply(author: Author, replyText: string, now: int, node: NodeId): (c: Comment)
    ensures c.name == author.name && c.username == author.username
    ensures c.text == Text.Trim(replyText) && c.timestamp == Some(now)
    ensures c.replies == Present([]) && !c.isOptimistic && c.optimisticId == None && !c.failed
  {
    Comment(node, author.name, author.username, Text.Trim(replyText), Some(now), Present([]), false, None, false)
  }

  /** The guard of `addReply`: no post, blank text or no username. */
  predicate ReplyIgnored(postId: string, replyText: string, author: Author) {
    postId == "" || Text.AllWhitespace(replyText) || author.username == ""
  }

  class CommentModalState {
    /**
     * The open post's id, read from the modal slice's post details on every
     * render; empty when there is no post, i.e. no document reference. The
     * modal stays mounted, so opening another post changes only this.
     */
    var postId: string
    var comments: seq<Comment>
    var optimisticComments: seq<Comment>
    var loading: bool

    constructor (postId: string)
      ensures this.postId == postId
      ensures comments == [] && optimisticComments == [] && loading
    {
      this.postId := postId;
      comments := [];
      optimisticComments := [];
      loading := true;
    }

    /**
     * Opening another post (`setCommentDetails` then `openCommentModal`):
     * only the post id changes. The stored, pending and loading state of the
     * previous post carry over until the next fetch, so its pending comments
     * are still rendered, and still settled, under the new post.
     */
    method SetPost(id: string)
      modifies this
      ensures postId == id
      ensures comments == old(comments) && optimisticComments == old(optimisticComments)
      ensures loading == old(loading)
      ensures AllComments()[|AllComments()| - |old(optimisticComments)|..] == old(optimisticComments)
    {
      postId := id;
    }

    /** `allComments`, the rendered list. */
    function AllComments(): (all: seq<Comment>)
      reads this
      ensures |all| >= |optimisticComments|
      ensures all[|all| - |optimisticComments|..] == optimisticComments
      ensures forall c :: c in all[..|all| - |optimisticComments|] <==>
                c in comments && !Shadowed(c, optimisticComments)
    {
      Merge(comments, optimisticComments)
    }

    /** `fetchComments`: replace the stored comments with the document's, `[]` when the field is missing. */
    method FetchComments(read: PostRead)
      modifies this
      ensures postId == old(postId)
      ensures postId == "" || read.ReadFailed? ==> unchanged(this)
      ensures postId != "" && read.PostDoc? ==>
                comments == StoredComments(read.comments) && !loading &&
                optimisticComments == old(optimisticComments)
    {
      if postId == "" {
        return;
      }
      match read
      case ReadFailed =>
      case PostDoc(field) =>
        comments := StoredComments(field);
        loading := false;
    }

    /** The synchronous part of `handleOptimisticUpdate`: append exactly one pending comment. */
    method HandleOptimisticUpdate(newComment: Comment, author: Author, commentId: string, node: NodeId)
      modifies this
      ensures postId == old(postId)
      ensures optimisticComments == old(optimisticComments) + [OptimisticComment(newComment, author, commentId, node)]
      ensures comments == old(comments) && loading == old(loading)
    {
      optimisticComments := optimisticComments + [OptimisticComment(newComment, author, commentId, node)];
    }

    /**
     * The continuation of `handleOptimisticUpdate` once the write of comment
     * `commentId` has succeeded or failed. `startPostId` is the post id as it
     * was when the handler started (the captured `postRef`); nothing was
     * written without a post, and a post opened meanwhile does not matter.
     */
    method SettleOptimisticComment(startPostId: string, commentId: string, writeOk: bool)
      modifies this
      ensures postId == old(postId)
      ensures startPostId == "" ==> unchanged(this)
      ensures startPostId != "" && writeOk ==>
                optimisticComments == WithoutOptimistic(old(optimisticComments), commentId)
      ensures startPostId != "" && !writeOk ==>
                optimisticComments == MarkFailed(old(optimisticComments), commentId)
      ensures comments == old(comments) && loading == old(loading)
    {
      if startPostId == "" {
        return;
      }
      if writeOk {
        optimisticComments := WithoutOptimistic(optimisticComments, commentId);
      } else {
        optimisticComments := MarkFailed(optimisticComments, commentId);
      }
    }

    /** The nested branch of `addReply`: the pending reply is inserted under every node that matches the parent. */
    method InsertPendingReply(parent: Comment, reply: Comment)
      modifies this
      ensures comments == InsertReply(old(comments), parent, reply)
      ensures optimisticComments == old(optimisticComments)
      ensures postId == old(postId) && loading == old(loading)
    {
      comments := InsertReply(comments, parent, reply);
    }

    /**
     * The synchronous part of `addReply`. Without a post, with blank text or
     * without a username it does nothing; without a parent it posts a
     * top-level comment; otherwise it inserts the pending reply under every
     * node that matches the parent.
     */
    method AddReply(parent: Option<Comment>, replyText: string, author: Author, now: int,
                    freshId: string, node: NodeId) returns (start: ReplyStart)
      modifies this
      ensures postId == old(postId)
      ensures start == Ignored <==> ReplyIgnored(old(postId), replyText, author)
      ensures start == Ignored ==> unchanged(this)
      ensures start != Ignored && parent.None? ==>
                start == TopLevel && comments == old(comments) &&
                optimisticComments == old(optimisticComments) +
                  [OptimisticComment(NewReply(author, replyText, now, node), author, freshId, node)]
      ensures start != Ignored && parent.Some? ==>
                start == Nested(PendingReply(parent.value, Text.Trim(replyText), freshId)) &&
                optimisticComments == old(optimisticComments) &&
                comments == InsertReply(old(comments), parent.value,
                  NewReply(author, replyText, now, node).(optimisticId := Some(freshId), isOptimistic := true))
      ensures loading == old(loading)
    {
      var trimmed := Text.Trim(replyText);
      Text.TrimEmptyIffBlank(replyText);
      if postId == "" || trimmed == "" || author.username == "" {
        return Ignored;
      }
      var newReply := NewReply(author, replyText, now, node);
      if parent.None? {
        HandleOptimisticUpdate(newReply, author, freshId, node);
        return TopLevel;
      }
      InsertPendingReply(parent.value, newReply.(optimisticId := Some(freshId), isOptimistic := true));
      start := Nested(PendingReply(parent.value, trimmed, freshId));
    }

    /**
     * The continuation of `addReply` for a nested reply. `current` is the
     * re-read post; `written` is the comment list sent to the database (the
     * stored reply inserted under the parent), absent when the read failed.
     * A successful write removes the pending reply, a failure marks it failed.
     */
    method SettleReply(pending: PendingReply, author: Author, now: int, node: NodeId,
                       current: PostRead, writeOk: bool) returns (written: Option<seq<Comment>>)
      modifies this
      ensures postId == old(postId)
      ensures current.ReadFailed? ==> written == None
      ensures current.PostDoc? ==>
                written == Some(InsertReply(StoredComments(current.comments), pending.parent,
                                            NewReply(author, pending.text, now, node)))
      ensures current.PostDoc? && writeOk ==> comments == RemoveReply(old(comments), pending.replyId)
      ensures current.ReadFailed? || !writeOk ==> comments == MarkReplyFailed(old(comments), pending.replyId)
      ensures optimisticComments == old(optimisticComments) && loading == old(loading)
    {
      match current
      case ReadFailed =>
        written := None;
        comments := MarkReplyFailed(comments, pending.replyId);
      case PostDoc(field) =>
        // `pending.text` is already trimmed; trimming it again changes nothing (Text.TrimIdempotent).
        var realReply := NewReply(author, pending.text, now, node);
        written := Some(InsertReply(StoredComments(field), pending.parent, realReply));
        if writeOk {
          comments := RemoveReply(comments, pending.replyId);
        } else {
          comments := MarkReplyFailed(comments, pending.replyId);
        }
    }

    /**
     * `editComment`. A pending target is edited in place among the pending
     * comments; for a stored target the edited list is returned as the write
     * to send, and local state waits for the next fetch.
     */
    method EditComment(target: Comment, newText: string) returns (write: Option<seq<Comment>>)
      modifies this
      ensures postId == old(postId)
      ensures postId == "" || Text.AllWhitespace(newText) ==> write == None && unchanged(this)
      ensures postId != "" && !Text.AllWhitespace(newText) && target.isOptimistic ==>
                write == None &&
                optimisticComments == Retext(old(optimisticComments), target.id, Text.Trim(newText)) &&
                comments == old(comments)
      ensures postId != "" && !Text.AllWhitespace(newText) && !target.isOptimistic ==>
                write == Some(EditInList(old(comments), target.id, Text.Trim(newText))) &&
                unchanged(this)
      ensures loading == old(loading)
    {
      Text.TrimEmptyIffBlank(newText);
      if postId == "" || Text.Trim(newText) == "" {
        return None;
      }
      var text := Text.Trim(newText);
      if target.isOptimistic {
        optimisticComments := Retext(optimisticComments, target.id, text);
        write := None;
      } else {
        write := Some(EditInList(comments, target.id, text));
      }
    }

    /**
     * `deleteComment`. A pending target is dropped from the pending comments;
     * for a stored target the pruned list is returned as the write to send.
     */
    method DeleteComment(target: Comment) returns (write: Option<seq<Comment>>)
      modifies this
      ensures postId == old(postId)
      ensures postId == "" ==> write == None && unchanged(this)
      ensures postId != "" && target.isOptimistic ==>
                write == None && comments == old(comments) &&
                optimisticComments == Seqs.Filter(old(optimisticComments), (c: Comment) => c.id != target.id)
      ensures postId != "" && !target.isOptimistic ==>
                write == Some(RemoveFromList(old(comments), target.id)) && unchanged(this)
      ensures loading == old(loading)
    {
      if postId == "" {
        return None;
      }
      if target.isOptimistic {
        optimisticComments := Seqs.Filter(optimisticComments, (c: Comment) => c.id != target.id);
        write := None;
      } else {
        write := Some(RemoveFromList(comments, target.id));
      }
    }
  }
}
