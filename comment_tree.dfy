/**
 * The comment thread of a post and the pure list transforms the comment
 * modal applies to it: the merged view of real and pending comments,
 * reply insertion under a parent, reconciliation of a pending reply, and
 * edit and delete by node identity at any depth.
 */
module CommentTree {
  import opened Wrappers
  import Seqs

  /** The identity of one comment object (what `===` compares). */
  type NodeId = nat

  /** The optional `replies` array of a comment: missing, or present (possibly empty). */
  datatype Replies = Absent | Present(items: seq<Comment>)

  datatype Comment = Comment(
    id: NodeId,
    name: string,
    username: string,
    text: string,
    timestamp: Option<int>,        // milliseconds of the stored timestamp, if any
    replies: Replies,
    isOptimistic: bool,
    optimisticId: Option<string>,
    failed: bool)

  /** The author fields taken from the signed-in user. */
  datatype Author = Author(name: string, username: string)

  /** `c.replies ?? []` */
  function RepliesOf(c: Comment): seq<Comment> {
    match c.replies
    case Absent => []
    case Present(items) => items
  }

  /** A comment's own fields, without its replies. */
  function Own(c: Comment): Comment {
    c.(replies := Absent)
  }

  // ---------------------------------------------------------------------
  // Whole-tree views used to state properties
  // ---------------------------------------------------------------------

  /** Every node of the forest, own fields only, in pre-order. */
  function Flatten(list: seq<Comment>): seq<Comment>
    decreases list
  {
    if list == [] then [] else FlattenNode(list[0]) + Flatten(list[1..])
  }

  function FlattenNode(c: Comment): seq<Comment>
    decreases c
  {
    [Own(c)] + match c.replies
               case Absent => []
               case Present(items) => Flatten(items)
  }

  /** The identities of a flat list of nodes, in order. */
  function IdsOf(ns: seq<Comment>): (ids: seq<NodeId>)
    ensures |ids| == |ns|
    ensures forall k :: 0 <= k < |ns| ==> ids[k] == ns[k].id
  {
    if ns == [] then [] else [ns[0].id] + IdsOf(ns[1..])
  }

  /** The identities of all nodes of the forest, at every depth. */
  function Ids(list: seq<Comment>): seq<NodeId> {
    IdsOf(Flatten(list))
  }

  predicate Distinct(ids: seq<NodeId>) {
    forall i, j :: 0 <= i < j < |ids| ==> ids[i] != ids[j]
  }

  /** The nesting structure of a forest: how many nodes sit at every position of every level. */
  datatype Skeleton = Skeleton(children: seq<Skeleton>)

  function Shape(list: seq<Comment>): seq<Skeleton>
    decreases list
  {
    if list == [] then [] else [ShapeNode(list[0])] + Shape(list[1..])
  }

  function ShapeNode(c: Comment): Skeleton
    decreases c
  {
    Skeleton(match c.replies
             case Absent => []
             case Present(items) => Shape(items))
  }

  /** The number of nodes of the forest. */
  function Size(list: seq<Comment>): nat
    decreases list
  {
    if list == [] then 0 else SizeNode(list[0]) + Size(list[1..])
  }

  function SizeNode(c: Comment): nat
    decreases c
  {
    1 + match c.replies
        case Absent => 0
        case Present(items) => Size(items)
  }

  lemma {:induction false} FlattenConcat(a: seq<Comment>, b: seq<Comment>)
    ensures Flatten(a + b) == Flatten(a) + Flatten(b)
  {
    if a == [] {
      assert a + b == b;
    } else {
      assert (a + b)[1..] == a[1..] + b;
      FlattenConcat(a[1..], b);
    }
  }

  lemma {:induction false} IdsOfConcat(a: seq<Comment>, b: seq<Comment>)
    ensures IdsOf(a + b) == IdsOf(a) + IdsOf(b)
  {
  }

  lemma DistinctParts(a: seq<NodeId>, b: seq<NodeId>)
    requires Distinct(a + b)
    ensures Distinct(a) && Distinct(b)
    ensures forall x :: x in a ==> x !in b
  {
    forall i, j | 0 <= i < j < |a| ensures a[i] != a[j] {
      assert a[i] == (a + b)[i] && a[j] == (a + b)[j];
    }
    forall i, j | 0 <= i < j < |b| ensures b[i] != b[j] {
      assert b[i] == (a + b)[|a| + i] && b[j] == (a + b)[|a| + j];
    }
    forall i, j | 0 <= i < |a| && 0 <= j < |b| ensures a[i] != b[j] {
      assert a[i] == (a + b)[i] && b[j] == (a + b)[|a| + j];
    }
  }

  /** A forest with distinct identities splits into a head node (own id, replies) and the rest, all distinct. */
  lemma {:induction false} DistinctSplit(list: seq<Comment>)
    requires list != [] && Distinct(Ids(list))
    ensures Distinct(Ids(RepliesOf(list[0]))) && Distinct(Ids(list[1..]))
    ensures list[0].id !in Ids(RepliesOf(list[0]))
    ensures forall x :: x in Ids(RepliesOf(list[0])) ==> x !in Ids(list[1..])
    ensures list[0].id !in Ids(list[1..])
  {
    var c := list[0];
    var inner := Flatten(RepliesOf(c));
    var rest := Flatten(list[1..]);
    assert Flatten(list) == [Own(c)] + inner + rest;
    IdsOfConcat([Own(c)] + inner, rest);
    IdsOfConcat([Own(c)], inner);
    DistinctParts(IdsOf([Own(c)] + inner), IdsOf(rest));
    DistinctParts(IdsOf([Own(c)]), IdsOf(inner));
  }

  // ---------------------------------------------------------------------
  // The merged view: real comments, minus those a pending comment shadows,
  // followed by every pending comment
  // ---------------------------------------------------------------------

  /** A pending comment with a non-empty `optimisticId` hides a real one with the same text and username. */
  predicate Shadows(pending: Comment, stored: Comment) {
    pending.optimisticId.Some? && pending.optimisticId.value != "" &&
    pending.text == stored.text && pending.username == stored.username
  }

  predicate Shadowed(stored: Comment, optimistic: seq<Comment>) {
    exists k :: 0 <= k < |optimistic| && Shadows(optimistic[k], stored)
  }

  /** `allComments`: the list the modal renders. */
  function Merge(comments: seq<Comment>, optimistic: seq<Comment>): (all: seq<Comment>)
    ensures |all| >= |optimistic| && all[|all| - |optimistic|..] == optimistic
    ensures forall c :: c in all[..|all| - |optimistic|] <==> c in comments && !Shadowed(c, optimistic)
  {
    var retained := Seqs.Filter(comments, (c: Comment) => !Shadowed(c, optimistic));
    assert (retained + optimistic)[..|retained|] == retained;
    retained + optimistic
  }

  /** The retained real comments keep their relative order: they are the unshadowed ones, position by position. */
  lemma MergeKeepsOrder(comments: seq<Comment>, optimistic: seq<Comment>)
    ensures var keep := (c: Comment) => !Shadowed(c, optimistic);
            var ps := Seqs.KeptPositions(comments, keep);
            var all := Merge(comments, optimistic);
            |all| == |ps| + |optimistic| &&
            forall k :: 0 <= k < |ps| ==> all[k] == comments[ps[k]]
  {
    var keep := (c: Comment) => !Shadowed(c, optimistic);
    Seqs.FilterIsSubsequence(comments, keep);
  }

  /** Without pending comments the merged view is exactly the real list. */
  lemma {:induction false} MergeWithoutPending(comments: seq<Comment>)
    ensures Merge(comments, []) == comments
  {
    Seqs.FilterKeepsAll(comments, (c: Comment) => !Shadowed(c, []));
  }

  // ---------------------------------------------------------------------
  // Pending entries: removal after a successful write, failure marking
  // ---------------------------------------------------------------------

  /** `list.filter(c => c.optimisticId !== id)` */
  function WithoutOptimistic(list: seq<Comment>, id: string): (r: seq<Comment>)
    ensures forall c :: c in r <==> c in list && c.optimisticId != Some(id)
  {
    Seqs.Filter(list, (c: Comment) => c.optimisticId != Some(id))
  }

  /** Removing the entries of one id keeps every other entry, in order. */
  lemma WithoutOptimisticKeepsOrder(list: seq<Comment>, id: string)
    ensures var ps := Seqs.KeptPositions(list, (c: Comment) => c.optimisticId != Some(id));
            |WithoutOptimistic(list, id)| == |ps| &&
            forall k :: 0 <= k < |ps| ==> WithoutOptimistic(list, id)[k] == list[ps[k]]
  {
    Seqs.FilterIsSubsequence(list, (c: Comment) => c.optimisticId != Some(id));
  }

  /** When no entry carries the id, nothing is removed. */
  lemma WithoutOptimisticAbsent(list: seq<Comment>, id: string)
    requires forall k :: 0 <= k < |list| ==> list[k].optimisticId != Some(id)
    ensures WithoutOptimistic(list, id) == list
  {
    Seqs.FilterKeepsAll(list, (c: Comment) => c.optimisticId != Some(id));
  }

  /** `list.map(c => c.optimisticId === id ? { ...c, failed: true } : c)` */
  function MarkFailed(list: seq<Comment>, id: string): (r: seq<Comment>)
    ensures |r| == |list|
    ensures forall k :: 0 <= k < |r| ==>
              if list[k].optimisticId == Some(id) then r[k] == list[k].(failed := true) else r[k] == list[k]
  {
    if list == [] then []
    else [if list[0].optimisticId == Some(id) then list[0].(failed := true) else list[0]]
         + MarkFailed(list[1..], id)
  }

  /** Marking an id failed and then removing it is the same as removing it. */
  lemma {:induction false} MarkFailedThenRemove(list: seq<Comment>, id: string)
    ensures WithoutOptimistic(MarkFailed(list, id), id) == WithoutOptimistic(list, id)
  {
    if list != [] {
      var n := |list|;
      var init, last := list[..n - 1], list[n - 1];
      var m := MarkFailed(list, id);
      MarkFailedThenRemove(init, id);
      assert m == MarkFailed(init, id) + MarkFailed([last], id) by {
        MarkFailedConcat(init, [last], id);
        assert init + [last] == list;
      }
      assert m[..n - 1] == MarkFailed(init, id);
      var keep := (c: Comment) => c.optimisticId != Some(id);
      assert WithoutOptimistic(m, id) == Seqs.Filter(m[..n - 1], keep) + (if keep(m[n - 1]) then [m[n - 1]] else []);
      assert WithoutOptimistic(list, id) == Seqs.Filter(init, keep) + (if keep(last) then [last] else []);
    }
  }

  lemma {:induction false} MarkFailedConcat(a: seq<Comment>, b: seq<Comment>, id: string)
    ensures MarkFailed(a + b, id) == MarkFailed(a, id) + MarkFailed(b, id)
  {
    if a != [] {
      assert (a + b)[1..] == a[1..] + b;
      MarkFailedConcat(a[1..], b, id);
    } else {
      assert a + b == b;
    }
  }

  // ---------------------------------------------------------------------
  // Reply insertion (the same walk builds the pending copy and the stored one)
  // ---------------------------------------------------------------------

  /** A node is the reply's parent when name, username, text and timestamp millis agree. */
  predicate SameComment(c: Comment, parent: Comment) {
    c.name == parent.name && c.username == parent.username &&
    c.text == parent.text && c.timestamp == parent.timestamp
  }

  /** Whether some node of the forest, at any depth, is the parent. */
  predicate HasParent(list: seq<Comment>, parent: Comment)
    decreases list
  {
    list != [] && (HasParentNode(list[0], parent) || HasParent(list[1..], parent))
  }

  predicate HasParentNode(c: Comment, parent: Comment)
    decreases c
  {
    SameComment(c, parent) ||
    match c.replies
    case Absent => false
    case Present(items) => HasParent(items, parent)
  }

  /** `updateCommentsOptimistically` / `updateCommentInList` in `addReply`. */
  function InsertReply(list: seq<Comment>, parent: Comment, reply: Comment): (r: seq<Comment>)
    ensures |r| == |list|
    decreases list
  {
    if list == [] then []
    else [InsertReplyNode(list[0], parent, reply)] + InsertReply(list[1..], parent, reply)
  }

  function InsertReplyNode(c: Comment, parent: Comment, reply: Comment): (r: Comment)
    ensures Own(r) == Own(c)
    decreases c
  {
    if SameComment(c, parent) then c.(replies := Present(RepliesOf(c) + [reply]))
    else match c.replies
         case Present(items) =>
           if |items| > 0 then c.(replies := Present(InsertReply(items, parent, reply))) else c
         case Absent => c
  }

  /** Each top-level entry is rewritten in place: a match gains the reply as its last child, others only through their replies. */
  lemma {:induction false} InsertReplyAt(list: seq<Comment>, parent: Comment, reply: Comment, k: nat)
    requires k < |list|
    ensures Own(InsertReply(list, parent, reply)[k]) == Own(list[k])
    ensures SameComment(list[k], parent) ==>
              RepliesOf(InsertReply(list, parent, reply)[k]) == RepliesOf(list[k]) + [reply]
    ensures !SameComment(list[k], parent) ==>
              RepliesOf(InsertReply(list, parent, reply)[k]) == InsertReply(RepliesOf(list[k]), parent, reply)
  {
    if k == 0 {
      var c := list[0];
      if !SameComment(c, parent) && RepliesOf(c) == [] {
        assert InsertReply(RepliesOf(c), parent, reply) == [];
      }
    } else {
      InsertReplyAt(list[1..], parent, reply, k - 1);
    }
  }

  /** When the parent is nowhere in the forest, insertion changes nothing. */
  lemma {:induction false} InsertReplyNoParent(list: seq<Comment>, parent: Comment, reply: Comment)
    requires !HasParent(list, parent)
    ensures InsertReply(list, parent, reply) == list
    decreases list
  {
    if list != [] {
      InsertReplyNoParentNode(list[0], parent, reply);
      InsertReplyNoParent(list[1..], parent, reply);
    }
  }

  lemma {:induction false} InsertReplyNoParentNode(c: Comment, parent: Comment, reply: Comment)
    requires !HasParentNode(c, parent)
    ensures InsertReplyNode(c, parent, reply) == c
    decreases c
  {
    match c.replies
    case Absent =>
    case Present(items) => InsertReplyNoParent(items, parent, reply);
  }

  /**
   * The number of insertion points: parents not lying inside another parent
   * (the walk does not search below a node it has matched).
   */
  function Hits(list: seq<Comment>, parent: Comment): nat
    decreases list
  {
    if list == [] then 0 else HitsNode(list[0], parent) + Hits(list[1..], parent)
  }

  function HitsNode(c: Comment, parent: Comment): nat
    decreases c
  {
    if SameComment(c, parent) then 1
    else match c.replies
         case Absent => 0
         case Present(items) => Hits(items, parent)
  }

  lemma {:induction false} SizeConcat(a: seq<Comment>, b: seq<Comment>)
    ensures Size(a + b) == Size(a) + Size(b)
  {
    if a == [] {
      assert a + b == b;
    } else {
      assert (a + b)[1..] == a[1..] + b;
      SizeConcat(a[1..], b);
    }
  }

  /** Insertion adds one copy of the reply per insertion point and nothing else. */
  lemma {:induction false} InsertReplySize(list: seq<Comment>, parent: Comment, reply: Comment)
    ensures Size(InsertReply(list, parent, reply)) == Size(list) + Hits(list, parent) * SizeNode(reply)
    decreases list
  {
    if list != [] {
      InsertReplySizeNode(list[0], parent, reply);
      InsertReplySize(list[1..], parent, reply);
      var h0, h1 := HitsNode(list[0], parent), Hits(list[1..], parent);
      assert (h0 + h1) * SizeNode(reply) == h0 * SizeNode(reply) + h1 * SizeNode(reply);
    }
  }

  lemma {:induction false} InsertReplySizeNode(c: Comment, parent: Comment, reply: Comment)
    ensures SizeNode(InsertReplyNode(c, parent, reply)) == SizeNode(c) + HitsNode(c, parent) * SizeNode(reply)
    decreases c
  {
    if SameComment(c, parent) {
      SizeConcat(RepliesOf(c), [reply]);
      assert Size([reply]) == SizeNode(reply) by { assert [reply][1..] == []; }
    } else {
      match c.replies
      case Absent =>
      case Present(items) =>
        if |items| > 0 {
          InsertReplySize(items, parent, reply);
        }
    }
  }

  /** When the parent occurs somewhere, there is at least one insertion point, so the reply lands in the forest. */
  lemma {:induction false} HasParentHits(list: seq<Comment>, parent: Comment)
    ensures HasParent(list, parent) <==> Hits(list, parent) > 0
    decreases list
  {
    if list != [] {
      HasParentHitsNode(list[0], parent);
      HasParentHits(list[1..], parent);
    }
  }

  lemma {:induction false} HasParentHitsNode(c: Comment, parent: Comment)
    ensures HasParentNode(c, parent) <==> HitsNode(c, parent) > 0
    decreases c
  {
    if !SameComment(c, parent) {
      match c.replies
      case Absent =>
      case Present(items) => HasParentHits(items, parent);
    }
  }

  // ---------------------------------------------------------------------
  // Reconciling a pending reply: only the direct replies of top-level comments
  // ---------------------------------------------------------------------

  /** The direct replies of a top-level comment, when it has at least one. */
  predicate HasDirectReplies(c: Comment) {
    c.replies.Present? && |c.replies.items| > 0
  }

  /** `removeOptimisticReply`: drop the reply with this id from each top-level comment's direct replies. */
  function RemoveReply(list: seq<Comment>, replyId: string): (r: seq<Comment>)
    ensures |r| == |list|
    ensures forall k :: 0 <= k < |r| ==> Own(r[k]) == Own(list[k])
    ensures forall k :: 0 <= k < |r| ==>
              r[k].replies == if HasDirectReplies(list[k])
                              then Present(WithoutOptimistic(list[k].replies.items, replyId))
                              else list[k].replies
    ensures forall k, j :: 0 <= k < |r| && 0 <= j < |RepliesOf(r[k])| ==>
              RepliesOf(r[k])[j].optimisticId != Some(replyId) && RepliesOf(r[k])[j] in RepliesOf(list[k])
  {
    if list == [] then []
    else
      var c := list[0];
      [if HasDirectReplies(c) then c.(replies := Present(WithoutOptimistic(c.replies.items, replyId))) else c]
      + RemoveReply(list[1..], replyId)
  }

  /** `markReplyAsFailed`: flag the reply with this id among each top-level comment's direct replies. */
  function MarkReplyFailed(list: seq<Comment>, replyId: string): (r: seq<Comment>)
    ensures |r| == |list|
    ensures forall k :: 0 <= k < |r| ==> Own(r[k]) == Own(list[k])
    ensures forall k :: 0 <= k < |r| ==>
              r[k].replies == if HasDirectReplies(list[k])
                              then Present(MarkFailed(list[k].replies.items, replyId))
                              else list[k].replies
  {
    if list == [] then []
    else
      var c := list[0];
      [if HasDirectReplies(c) then c.(replies := Present(MarkFailed(c.replies.items, replyId))) else c]
      + MarkReplyFailed(list[1..], replyId)
  }

  /** Failure marking rewrites flags only: the tree keeps its shape. */
  lemma {:induction false} MarkReplyFailedKeepsShape(list: seq<Comment>, replyId: string)
    ensures Shape(MarkReplyFailed(list, replyId)) == Shape(list)
  {
    if list != [] {
      MarkReplyFailedKeepsShape(list[1..], replyId);
      var c := list[0];
      if HasDirectReplies(c) {
        MarkFailedKeepsShape(c.replies.items, replyId);
      }
      assert MarkReplyFailed(list, replyId)[1..] == MarkReplyFailed(list[1..], replyId);
    }
  }

  lemma {:induction false} MarkFailedKeepsShape(list: seq<Comment>, id: string)
    ensures Shape(MarkFailed(list, id)) == Shape(list)
  {
    if list != [] {
      MarkFailedKeepsShape(list[1..], id);
    }
  }

  // ---------------------------------------------------------------------
  // Edit and delete by identity
  // ---------------------------------------------------------------------

  /** Give every node of a flat list with identity `target` the text `text`. */
  function Retext(ns: seq<Comment>, target: NodeId, text: string): (r: seq<Comment>)
    ensures |r| == |ns|
    ensures forall k :: 0 <= k < |r| ==>
              r[k] == if ns[k].id == target then ns[k].(text := text) else ns[k]
  {
    if ns == [] then []
    else [if ns[0].id == target then ns[0].(text := text) else ns[0]] + Retext(ns[1..], target, text)
  }

  lemma RetextConcat(a: seq<Comment>, b: seq<Comment>, target: NodeId, text: string)
    ensures Retext(a + b, target, text) == Retext(a, target, text) + Retext(b, target, text)
  {
  }

  lemma RetextAbsent(ns: seq<Comment>, target: NodeId, text: string)
    requires target !in IdsOf(ns)
    ensures Retext(ns, target, text) == ns
  {
  }

  /** `updateCommentInList` in `editComment`: the target gets the new text; every other node is rebuilt with its replies edited. */
  function EditInList(list: seq<Comment>, target: NodeId, text: string): (r: seq<Comment>)
    ensures |r| == |list|
    decreases list
  {
    if list == [] then []
    else [EditNode(list[0], target, text)] + EditInList(list[1..], target, text)
  }

  function EditNode(c: Comment, target: NodeId, text: string): (r: Comment)
    decreases c
  {
    if c.id == target then c.(text := text)
    else c.(replies := Present(match c.replies
                               case Absent => []
                               case Present(items) => EditInList(items, target, text)))
  }

  /** Editing keeps the number of nodes at every position of every level. */
  lemma {:induction false} EditKeepsShape(list: seq<Comment>, target: NodeId, text: string)
    ensures Shape(EditInList(list, target, text)) == Shape(list)
    decreases list
  {
    if list != [] {
      EditKeepsShapeNode(list[0], target, text);
      EditKeepsShape(list[1..], target, text);
    }
  }

  lemma {:induction false} EditKeepsShapeNode(c: Comment, target: NodeId, text: string)
    ensures ShapeNode(EditNode(c, target, text)) == ShapeNode(c)
    decreases c
  {
    if c.id != target {
      match c.replies
      case Absent =>
      case Present(items) => EditKeepsShape(items, target, text);
    }
  }

  /**
   * With distinct identities, editing changes the target's text and nothing
   * else: node by node in pre-order, every other own field is as before.
   */
  lemma {:induction false} EditOnlyTarget(list: seq<Comment>, target: NodeId, text: string)
    requires Distinct(Ids(list))
    ensures Flatten(EditInList(list, target, text)) == Retext(Flatten(list), target, text)
    decreases list
  {
    if list != [] {
      var c := list[0];
      DistinctSplit(list);
      EditOnlyTargetNode(c, target, text);
      EditOnlyTarget(list[1..], target, text);
      RetextConcat(FlattenNode(c), Flatten(list[1..]), target, text);
    }
  }

  lemma {:induction false} EditOnlyTargetNode(c: Comment, target: NodeId, text: string)
    requires Distinct(Ids(RepliesOf(c))) && c.id !in Ids(RepliesOf(c))
    ensures FlattenNode(EditNode(c, target, text)) == Retext(FlattenNode(c), target, text)
    decreases c
  {
    var inner := Flatten(RepliesOf(c));
    RetextConcat([Own(c)], inner, target, text);
    if c.id == target {
      RetextAbsent(inner, target, text);
    } else {
      match c.replies
      case Absent =>
      case Present(items) => EditOnlyTarget(items, target, text);
    }
  }

  /** `removeCommentFromList`: drop every node with the target identity, at every depth. */
  function RemoveFromList(list: seq<Comment>, target: NodeId): (r: seq<Comment>)
    ensures |r| <= |list|
    ensures forall k :: 0 <= k < |r| ==> r[k].id != target
    decreases list
  {
    if list == [] then []
    else (if list[0].id == target then [] else [PruneNode(list[0], target)])
         + RemoveFromList(list[1..], target)
  }

  function PruneNode(c: Comment, target: NodeId): (r: Comment)
    ensures Own(r) == Own(c)
    decreases c
  {
    c.(replies := Present(match c.replies
                          case Absent => []
                          case Present(items) => RemoveFromList(items, target)))
  }

  /** After deletion the target occurs nowhere in the forest. */
  lemma {:induction false} RemoveLeavesNoTarget(list: seq<Comment>, target: NodeId)
    ensures target !in Ids(RemoveFromList(list, target))
    decreases list
  {
    if list != [] {
      var c := list[0];
      var rest := RemoveFromList(list[1..], target);
      RemoveLeavesNoTarget(list[1..], target);
      if c.id != target {
        var p := PruneNode(c, target);
        var r := RemoveFromList(list, target);
        RemoveLeavesNoTargetNode(c, target);
        assert r == [p] + rest;
        assert r[0] == p && r[1..] == rest;
        assert Flatten(r) == FlattenNode(p) + Flatten(rest);
        IdsOfConcat(FlattenNode(p), Flatten(rest));
      } else {
        assert RemoveFromList(list, target) == rest;
      }
    }
  }

  lemma {:induction false} RemoveLeavesNoTargetNode(c: Comment, target: NodeId)
    requires c.id != target
    ensures target !in IdsOf(FlattenNode(PruneNode(c, target)))
    decreases c
  {
    var kids := match c.replies
                case Absent => []
                case Present(items) => RemoveFromList(items, target);
    match c.replies
    case Absent =>
      assert kids == [] && Flatten(kids) == [];
    case Present(items) => RemoveLeavesNoTarget(items, target);
    IdsOfConcat([Own(c)], Flatten(kids));
  }

  /**
   * Surviving siblings are exactly the non-target ones, in their original
   * order, each pruned in turn. Since pruning a node removes from its
   * replies by the same rule, this fixes the order at every depth.
   */
  lemma {:induction false} RemoveKeepsSiblingOrder(list: seq<Comment>, target: NodeId)
    ensures var kept := Seqs.Filter(list, (c: Comment) => c.id != target);
            var r := RemoveFromList(list, target);
            |r| == |kept| &&
            forall k :: 0 <= k < |r| ==> r[k] == PruneNode(kept[k], target) && Own(r[k]) == Own(kept[k])
  {
    var keep := (c: Comment) => c.id != target;
    if list != [] {
      var init := list[..|list| - 1];
      var last := list[|list| - 1];
      RemoveKeepsSiblingOrder(init, target);
      RemoveConcat(init, [last], target);
      assert init + [last] == list;
      var rLast := RemoveFromList([last], target);
      RemoveSingle(last, target);
      assert Seqs.Filter(list, keep) == Seqs.Filter(init, keep) + (if keep(last) then [last] else []);
      PrunedConcat(RemoveFromList(init, target), rLast,
                   Seqs.Filter(init, keep), if keep(last) then [last] else [], target);
    }
  }

  lemma RemoveSingle(c: Comment, target: NodeId)
    ensures RemoveFromList([c], target) == if c.id == target then [] else [PruneNode(c, target)]
  {
    assert [c][1..] == [];
  }

  /** Two lists each of which is the other pruned node by node, joined, still are. */
  lemma PrunedConcat(a: seq<Comment>, b: seq<Comment>, c: seq<Comment>, d: seq<Comment>, target: NodeId)
    requires |a| == |c| && forall k :: 0 <= k < |a| ==> a[k] == PruneNode(c[k], target)
    requires |b| == |d| && forall k :: 0 <= k < |b| ==> b[k] == PruneNode(d[k], target)
    ensures |a + b| == |c + d| && forall k :: 0 <= k < |a + b| ==> (a + b)[k] == PruneNode((c + d)[k], target)
  {
    forall k | 0 <= k < |a + b| ensures (a + b)[k] == PruneNode((c + d)[k], target) {
      if k >= |a| {
        assert (a + b)[k] == b[k - |a|] && (c + d)[k] == d[k - |a|];
      }
    }
  }

  lemma {:induction false} RemoveConcat(a: seq<Comment>, b: seq<Comment>, target: NodeId)
    ensures RemoveFromList(a + b, target) == RemoveFromList(a, target) + RemoveFromList(b, target)
  {
    if a == [] {
      assert a + b == b;
    } else {
      assert (a + b)[1..] == a[1..] + b;
      RemoveConcat(a[1..], b, target);
    }
  }

  /** Deleting an identity that does not occur keeps every node and the shape. */
  lemma {:induction false} RemoveAbsentKeepsNodes(list: seq<Comment>, target: NodeId)
    requires target !in Ids(list)
    ensures Flatten(RemoveFromList(list, target)) == Flatten(list)
    ensures Shape(RemoveFromList(list, target)) == Shape(list)
    decreases list
  {
    if list != [] {
      var c := list[0];
      assert Flatten(list) == FlattenNode(c) + Flatten(list[1..]);
      IdsOfConcat(FlattenNode(c), Flatten(list[1..]));
      IdsOfConcat([Own(c)], Flatten(RepliesOf(c)));
      RemoveAbsentKeepsNodes(list[1..], target);
      var r := RemoveFromList(list, target);
      assert r == [PruneNode(c, target)] + RemoveFromList(list[1..], target);
      assert r[0] == PruneNode(c, target) && r[1..] == RemoveFromList(list[1..], target);
      match c.replies
      case Absent =>
        assert PruneNode(c, target).replies == Present([]);
        assert ShapeNode(PruneNode(c, target)) == ShapeNode(c);
      case Present(items) => RemoveAbsentKeepsNodes(items, target);
    }
  }

  /** `(data?.comments as Comment[]) ?? []` for a fetched post. */
  function StoredComments(field: Option<seq<Comment>>): (r: seq<Comment>)
    ensures field.None? ==> r == []
    ensures field.Some? ==> r == field.value
  {
    field.GetOr([])
  }
}
