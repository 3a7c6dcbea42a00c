/** The enlarged view of a post (`PostLightbox`): its like button, the
    comment form and the text it shares. */
module PostLightbox {
  import opened Optional
  import opened Text
  import opened Posts

  /** The post shown (none while closed), `isLiked` and `likesCount`, and
      the comment form. */
  datatype Lightbox = Lightbox(post: Option<Post>, like: LikeState, name: string, text: string)

  /** A new post is shown: the count comes from the post at once, while the
      flag stays as it was until the store answers whether this session has
      liked the post. The comment form is kept. */
  function ShowPost(b: Lightbox, p: Post): (r: Lightbox)
    ensures r.post == Some(p) && r.like == LikeState(b.like.liked, p.likesCount)
    ensures r.name == b.name && r.text == b.text
  {
    b.(post := Some(p), like := LikeState(b.like.liked, p.likesCount))
  }

  /** `checkIfLiked` answers: the flag becomes the store's answer and
      nothing else changes. */
  function LikedAnswer(b: Lightbox, likedInStore: bool): (r: Lightbox)
    ensures r.like.liked == likedInStore
    ensures r == b.(like := r.like) && r.like.count == b.like.count
  {
    b.(like := b.like.(liked := likedInStore))
  }

  /** Before the store's answer arrives, the new post is shown with the
      previous post's flag: a like click in that window sends the call that
      flag chooses, a delete for a post this session may never have liked. */
  lemma StaleFlagChoosesCall(b: Lightbox, p: Post, sessionId: string)
    requires b.like.liked
    ensures LikeClick(ShowPost(b, p), sessionId) == Some(DeleteLike(p.id, sessionId))
  {
  }

  /** A click on the like button (`handleLike` up to its store call):
      nothing without a post; otherwise the call chosen from the flag on
      screen goes out. Unlike the card, the lightbox marks nothing as in
      flight, so a second click before the answer sends a second call. */
  function LikeClick(b: Lightbox, sessionId: string): (call: Option<LikeCall>)
    ensures call.None? <==> b.post.None?
    ensures call.Some? ==> call.value == CallFor(b.like, b.post.value.id, sessionId)
  {
    if b.post.None? then None else Some(CallFor(b.like, b.post.value.id, sessionId))
  }

  /** The store's answer to one like call. A refused call changes nothing.
      An accepted insert sets the flag and adds one to the count shown now;
      an accepted delete clears it and takes one off, never below zero. */
  function LikeAnswer(b: Lightbox, call: LikeCall, stored: bool): (r: Lightbox)
    ensures !stored ==> r == b
    ensures stored ==> r == b.(like := r.like) && r.like.liked == call.InsertLike?
    ensures stored && call.InsertLike? ==> r.like.count == b.like.count + 1
    ensures stored && call.DeleteLike? ==> r.like.count == (if b.like.count >= 1 then b.like.count - 1 else 0)
  {
    if !stored then b
    else if call.DeleteLike? then b.(like := LikeState(false, if b.like.count - 1 > 0 then b.like.count - 1 else 0))
    else b.(like := LikeState(true, b.like.count + 1))
  }

  /** A click answered before the next one toggles the like as on a card. */
  lemma ClickThenAnswerToggles(b: Lightbox, sessionId: string, stored: bool)
    requires b.post.Some?
    ensures LikeAnswer(b, LikeClick(b, sessionId).value, stored).like == ToggleLike(b.like, stored)
  {
  }

  /** Two clicks on a post not yet liked, both before the first answer,
      send two inserts; when the store takes both, the count goes up by two
      for one visitor. */
  lemma TwoClicksSendTwoInserts(b: Lightbox, sessionId: string)
    requires b.post.Some? && !b.like.liked
    ensures var first, second := LikeClick(b, sessionId), LikeClick(b, sessionId);
      && first == second == Some(InsertLike(b.post.value.id, sessionId))
      && LikeAnswer(LikeAnswer(b, first.value, true), second.value, true).like == LikeState(true, b.like.count + 2)
  {
  }

  /** A shown post whose store answer is consistent with its count comes
      back as shown after a like and an unlike, both clicked after the
      previous answer and both accepted. */
  lemma ShowPostLikeRoundTrip(b: Lightbox, p: Post, likedInStore: bool, sessionId: string)
    requires Consistent(LikeState(likedInStore, p.likesCount))
    ensures var shown := LikedAnswer(ShowPost(b, p), likedInStore);
      var once := LikeAnswer(shown, LikeClick(shown, sessionId).value, true);
      LikeAnswer(once, LikeClick(once, sessionId).value, true) == shown
  {
  }

  /** The row a comment adds, with name and text as typed, untrimmed. */
  datatype NewComment = NewComment(postId: string, authorName: string, text: string)

  datatype CommentOutcome = CommentOutcome(box: Lightbox, sent: Option<NewComment>)

  /** `handleSubmitComment`: without a post, or with a name or a text that
      is only white space, nothing is sent and nothing changes. Otherwise
      the comment is sent; when the store takes it both fields are emptied,
      when it refuses nothing changes. The send and its answer are one step. */
  function SubmitComment(b: Lightbox, stored: bool): (r: CommentOutcome)
    ensures r.sent.None? <==> b.post.None? || IsBlank(b.name) || IsBlank(b.text)
    ensures r.sent.None? ==> r.box == b
    ensures r.sent.Some? ==>
      && r.sent.value == NewComment(b.post.value.id, b.name, b.text)
      && r.box.post == b.post && r.box.like == b.like
      && (stored ==> r.box.name == "" && r.box.text == "")
      && (!stored ==> r.box == b)
  {
    TrimEmptyIffBlank(b.name);
    TrimEmptyIffBlank(b.text);
    if b.post.None? || Trim(b.name) == [] || Trim(b.text) == [] then CommentOutcome(b, None)
    else
      var comment := NewComment(b.post.value.id, b.name, b.text);
      if stored then CommentOutcome(b.(name := "", text := ""), Some(comment))
      else CommentOutcome(b, Some(comment))
  }

  const ShareFooter: string := "View this post and more on our website!"

  /** The text `handleShare` hands to the system share sheet: the title, the
      caption, an empty line and the footer. */
  function ShareText(p: Post): (t: string)
    ensures |t| == |p.title| + |p.caption| + 3 + |ShareFooter|
    ensures t[..|p.title|] == p.title
  {
    p.title + "\n" + p.caption + "\n\n" + ShareFooter
  }

  /** Three one-line pieces joined as the share text is split back into
      them, with the empty line between the second and the third. */
  lemma {:induction false} LinesOfShareLayout(a: string, b: string, c: string)
    requires '\n' !in a && '\n' !in b && '\n' !in c
    ensures Lines(a + "\n" + b + "\n\n" + c) == [a, b, "", c]
  {
    var tail := "\n" + c;
    var rest := b + "\n" + tail;
    var whole := a + "\n" + rest;
    assert whole == a + "\n" + b + "\n\n" + c;
    LinesOfJoined(a, rest);
    LinesOfJoined(b, tail);
    LinesOfLeadingBreak(c);
    LinesOfSingle(c);
    assert Lines(whole) == [a] + ([b] + ([""] + [c]));
  }

  /** A line break at the very start opens with an empty line. */
  lemma LinesOfLeadingBreak(c: string)
    ensures Lines("\n" + c) == [""] + Lines(c)
  {
    var s := "\n" + c;
    assert s[0] == '\n';
    assert Before(s, '\n') == "";
    assert s[1..] == c;
  }

  /** Text without a line break is one line. */
  lemma LinesOfSingle(s: string)
    requires '\n' !in s
    ensures Lines(s) == [s]
  {
  }

  /** For a one-line title and caption, the shared text reads as four lines:
      the title, the caption, an empty line and the footer. */
  lemma ShareTextLines(p: Post)
    requires '\n' !in p.title && '\n' !in p.caption
    ensures Lines(ShareText(p)) == [p.title, p.caption, "", ShareFooter]
  {
    assert '\n' !in ShareFooter;
    LinesOfShareLayout(p.title, p.caption, ShareFooter);
  }
}
