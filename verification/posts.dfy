/** The gallery's post record and the like toggle shared by the post card
    and the lightbox. Calls to the remote store are not modelled: each one
    is an outcome input, `true` when the store accepted it. */
module Posts {
  import opened Optional

  datatype Status = Pending | Published | Rejected

  /** A post as the store returns it. The counts are JavaScript numbers and
      are taken as whole numbers; the store keeps them. */
  datatype Post = Post(
    id: string,
    title: string,
    writeUp: string,
    caption: string,
    imageUrl: string,
    altText: string,
    authorName: string,
    authorEmail: Option<string>,
    authorId: Option<string>,
    likesCount: int,
    commentsCount: int,
    status: Status,
    rejectionReason: Option<string>,
    createdAt: string,
    publishedAt: Option<string>)

  /** What a component shows about this visitor's like of a post. */
  datatype LikeState = LikeState(liked: bool, count: int)

  /** The store call a like click makes for the visitor's session. */
  datatype LikeCall = InsertLike(postId: string, sessionId: string) | DeleteLike(postId: string, sessionId: string)

  /** A click on a liked post removes the like; otherwise it adds one. */
  function CallFor(st: LikeState, postId: string, sessionId: string): (c: LikeCall)
    ensures c.DeleteLike? <==> st.liked
    ensures c.postId == postId && c.sessionId == sessionId
  {
    if st.liked then DeleteLike(postId, sessionId) else InsertLike(postId, sessionId)
  }

  /** The shown state once the store has answered the call. A refused call
      changes nothing. An accepted like sets the flag and adds one; an
      accepted unlike clears it and takes one off, never going below zero. */
  function ToggleLike(st: LikeState, stored: bool): (r: LikeState)
    ensures !stored ==> r == st
    ensures stored ==> r.liked == !st.liked
    ensures stored && !st.liked ==> r.count == st.count + 1
    ensures stored && st.liked ==> r.count >= 0 && r.count == (if st.count >= 1 then st.count - 1 else 0)
  {
    if !stored then st
    else if st.liked then LikeState(false, if st.count - 1 > 0 then st.count - 1 else 0)
    else LikeState(true, st.count + 1)
  }

  /** A shown state the store could have produced: a liked post counts at
      least this visitor's like, and no count is negative. */
  predicate Consistent(st: LikeState) {
    st.count >= (if st.liked then 1 else 0)
  }

  /** Toggling keeps a consistent state consistent, and toggling twice with
      both calls accepted brings back the state it started from. */
  lemma ToggleRoundTrip(st: LikeState)
    requires Consistent(st)
    ensures Consistent(ToggleLike(st, true))
    ensures ToggleLike(ToggleLike(st, true), true) == st
  {
  }
}
