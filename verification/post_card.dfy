/** The like button of a gallery card (`PostCard`). A click starts a store
    call and the button ignores further clicks until the call has
    answered. */
module PostCard {
  import opened Optional
  import opened Posts

  /** `isLiked`, `likesCount` and `isLiking`. */
  datatype Card = Card(like: LikeState, liking: bool)

  /** A card as first shown: not liked, the post's count, nothing in flight. */
  function Show(p: Post): (c: Card)
    ensures c.like == LikeState(false, p.likesCount) && !c.liking
  {
    Card(LikeState(false, p.likesCount), false)
  }

  datatype Clicked = Clicked(card: Card, call: Option<LikeCall>)

  /** The click: ignored while a call is in flight; otherwise the card is
      busy and the like or unlike call for this session goes out. */
  function Click(c: Card, postId: string, sessionId: string): (r: Clicked)
    ensures c.liking ==> r == Clicked(c, None)
    ensures !c.liking ==> r.card == c.(liking := true) && r.call == Some(CallFor(c.like, postId, sessionId))
  {
    if c.liking then Clicked(c, None)
    else Clicked(c.(liking := true), Some(CallFor(c.like, postId, sessionId)))
  }

  /** The store's answer: the like state toggles when it was accepted and
      stays when it was refused; the card is free again either way. */
  function Finish(c: Card, stored: bool): (r: Card)
    requires c.liking
    ensures !r.liking
    ensures r.like == ToggleLike(c.like, stored)
  {
    Card(ToggleLike(c.like, stored), false)
  }

  /** How a card's answer ends: the card, whether `onLikeChange` is called
      and whether the failure message is shown. */
  datatype Settled = Settled(card: Card, notified: bool, failureShown: bool)

  /** The answer as the page handles it. After an accepted like, the
      confetti is placed at the click event's `currentTarget`, read after
      the store call was awaited. By then the event has no current target,
      so placing it throws into the failure path: the failure is shown and
      `onLikeChange` is skipped, although the like was recorded. */
  function SettleAsWritten(c: Card, stored: bool): (r: Settled)
    requires c.liking
    ensures r.card == Finish(c, stored)
    ensures r.notified <==> stored && c.like.liked
    ensures r.failureShown <==> !stored || !c.like.liked
  {
    var confettiThrows := stored && !c.like.liked;
    Settled(Finish(c, stored), stored && !confettiThrows, !stored || confettiThrows)
  }

  /** The answer as intended, with the clicked element kept before the
      call: the change is reported exactly when the store accepted the
      call, and the failure exactly when it refused it. */
  function Settle(c: Card, stored: bool): (r: Settled)
    requires c.liking
    ensures r.card == Finish(c, stored)
    ensures r.notified <==> stored
    ensures r.failureShown <==> !stored
  {
    Settled(Finish(c, stored), stored, !stored)
  }

  /** An accepted like as the page handles it: the card shows the like, yet
      the failure message appears and the change is not reported. The
      intended answer reports it and shows no failure. */
  lemma AcceptedLikeReportsFailure(c: Card)
    requires c.liking && !c.like.liked
    ensures var r := SettleAsWritten(c, true);
      r.card.like.liked && r.failureShown && !r.notified
    ensures Settle(c, true).notified && !Settle(c, true).failureShown
  {
  }

  /** Clicking twice before the store answers sends one call; the answer
      then settles the card as a single click would. */
  lemma DoubleClickSendsOnce(c: Card, postId: string, sessionId: string, stored: bool)
    requires !c.liking
    ensures var first := Click(c, postId, sessionId);
      && first.call.Some?
      && Click(first.card, postId, sessionId) == Clicked(first.card, None)
      && Finish(first.card, stored) == Card(ToggleLike(c.like, stored), false)
  {
  }
}
