/** The Memory Match session: what the page keeps in React state, one
    function per handler, and the delayed callbacks as separate steps
    (`Resolve` 0.5 or 1 second after a pair is turned, `CompleteLevel` one
    second after the last pair is matched, `PeekEnd` two seconds after a
    peek). */
module MatchGame {
  import opened MatchCatalog
  import opened MatchDeck
  import opened Perms
  import Countdown

  /** The page also declares `match` and `mismatch`, which it never sets. */
  datatype Phase = Idle | Playing | LevelComplete | GameComplete | TimedOut

  /** `pending` is `flippedCards`, the positions turned this turn.
      `flipTime` is the time left when the second card of the turn was
      turned, the value the match callback's closure reads.
      `completionDue` and `peeksShowing` record waiting callbacks. */
  datatype Session = Session(
    phase: Phase,
    level: nat,
    score: nat,
    clock: Countdown.Clock,
    movesLeft: nat,
    cards: seq<Card>,
    pending: seq<nat>,
    flipTime: nat,
    matches: nat,
    streak: nat,
    combo: nat,
    completionDue: bool,
    peeksShowing: nat)

  /** The page before the first start. */
  const Initial: Session := Session(Idle, 0, 0, Countdown.Clock(60, false), 20, [], [], 0, 0, 0, 0, false, 0)

  /** The deck and the turn in progress agree: at most two distinct pending
      cards, none of them matched, every matched card face up, and two
      matched cards for every match counted. */
  predicate DeckOk(cards: seq<Card>, pending: seq<nat>, matches: nat) {
    && |pending| <= 2
    && (forall i :: 0 <= i < |pending| ==> pending[i] < |cards| && !cards[pending[i]].matched)
    && (|pending| == 2 ==> pending[0] != pending[1])
    && (forall i :: 0 <= i < |cards| && cards[i].matched ==> cards[i].flipped)
    && 2 * matches == CountMatched(cards)
  }

  predicate Valid(s: Session) {
    && s.level < |Levels|
    && s.clock.timeLeft <= Levels[s.level].time
    && s.movesLeft <= Levels[s.level].moves
    && DeckOk(s.cards, s.pending, s.matches)
    && (s.phase != Idle ==> |s.cards| == 2 * Levels[s.level].pairs)
    && (s.completionDue ==> s.matches >= Levels[s.level].pairs)
    && (s.phase == Idle ==>
          s.cards == [] && s.pending == [] && !s.clock.running && !s.completionDue && s.peeksShowing == 0)
  }

  lemma InitialIsValid()
    ensures Valid(Initial)
  {
  }

  /** A freshly dealt level: the level's deck, its full time on a running
      clock, its full allowance of moves, no turn in progress, nothing
      waiting, and streak, combo and matches back at zero. */
  predicate FreshLevel(s: Session, levelIndex: nat)
    requires levelIndex < |Levels|
  {
    && s.phase == Playing
    && s.level == levelIndex
    && s.clock == Countdown.Start(Levels[levelIndex].time)
    && s.movesLeft == Levels[levelIndex].moves
    && |s.cards| == Levels[levelIndex].grid
    && (forall m :: 0 <= m < |s.cards| ==> !s.cards[m].flipped && !s.cards[m].matched)
    && (forall k :: 0 <= k < Levels[levelIndex].pairs ==> ExactlyTwo(s.cards, Faces[k].kind))
    && s.pending == [] && !s.completionDue && s.peeksShowing == 0
    && s.matches == 0 && s.streak == 0 && s.combo == 0
  }

  /** Deals level `levelIndex` onto `s`, which carries the score forward. */
  function DealLevel(s: Session, levelIndex: nat, perm: seq<nat>): (r: Session)
    requires levelIndex < |Levels| && IsPermutation(perm, Levels[levelIndex].grid)
    ensures FreshLevel(r, levelIndex) && Valid(r) && r.score == s.score
  {
    var cards := GenerateCards(levelIndex, perm);
    CountSameFlags(cards, seq(|cards|, i requires 0 <= i < |cards| => cards[i].(matched := false)));
    NoneMatchedCount(cards);
    s.(phase := Playing, level := levelIndex, clock := Countdown.Start(Levels[levelIndex].time),
       movesLeft := Levels[levelIndex].moves, cards := cards, pending := [], completionDue := false,
       peeksShowing := 0, matches := 0, streak := 0, combo := 0)
  }

  lemma {:induction false} NoneMatchedCount(cards: seq<Card>)
    requires forall m :: 0 <= m < |cards| ==> !cards[m].matched
    ensures CountMatched(cards) == 0
  {
    if cards != [] {
      NoneMatchedCount(cards[1..]);
    }
  }

  /** `startGame` (also `restartGame`): level 1 from scratch, whatever the
      session held before. Callbacks still waiting from before are dropped. */
  function StartGame(perm: seq<nat>): (r: Session)
    requires IsPermutation(perm, 4)
    ensures FreshLevel(r, 0) && Valid(r)
    ensures r.score == 0 && r.clock.timeLeft == 60 && r.movesLeft == 20 && |r.cards| == 4
  {
    DealLevel(Initial, 0, perm)
  }

  /** One firing of the interval, as in the word game. The page never stops
      this clock when a level is complete, so the level complete screen
      itself gives way to a timeout. */
  function Tick(s: Session): (r: Session)
    requires Valid(s)
    ensures Valid(r)
    ensures r.clock == Countdown.Tick(s.clock)
    ensures r.phase == (if Countdown.Expires(s.clock) then TimedOut else s.phase)
    ensures r == s.(clock := r.clock, phase := r.phase)
  {
    var c := Countdown.Tick(s.clock);
    if Countdown.Expires(s.clock) then s.(clock := c, phase := TimedOut) else s.(clock := c)
  }

  // ---------------------------------------------------------------------
  // Turning cards

  /** `handleCardClick` as written: during play and with moves left, a card
      that is face down, unmatched, and clicked while fewer than two cards
      are pending is turned face up and becomes pending; turning the second
      card of a turn uses a move and captures the time left. */
  function FlipAsWritten(s: Session, i: nat): (r: Session)
    requires i < |s.cards|
    ensures |r.cards| == |s.cards|
    ensures r != s <==>
      s.phase == Playing && s.movesLeft > 0 && !s.cards[i].flipped && !s.cards[i].matched && |s.pending| < 2
    ensures r != s ==> r.pending == s.pending + [i] && r.cards == s.cards[i := s.cards[i].(flipped := true)]
  {
    if s.phase != Playing || s.movesLeft == 0 then s
    else if s.cards[i].flipped || s.cards[i].matched || |s.pending| >= 2 then s
    else
      var cards := s.cards[i := s.cards[i].(flipped := true)];
      var pending := s.pending + [i];
      if |pending| == 2 then
        s.(cards := cards, pending := pending, movesLeft := s.movesLeft - 1, flipTime := s.clock.timeLeft)
      else s.(cards := cards, pending := pending)
  }

  /** `handleCardClick` as evidently intended: a card already pending in
      this turn cannot be its own partner. The page relies on the pending
      card being face up, which the end of a peek undoes. */
  function Flip(s: Session, i: nat): (r: Session)
    requires Valid(s) && i < |s.cards|
    ensures Valid(r) && r.score == s.score && r.matches == s.matches
    ensures r != s <==>
      && s.phase == Playing && s.movesLeft > 0 && !s.cards[i].flipped && !s.cards[i].matched
      && |s.pending| < 2 && i !in s.pending
    ensures r != s ==>
      && r.pending == s.pending + [i]
      && r.cards == s.cards[i := s.cards[i].(flipped := true)]
      && r.movesLeft + (if |r.pending| == 2 then 1 else 0) == s.movesLeft
  {
    if i in s.pending then s
    else
      CountAfterUpdate(s.cards, i, s.cards[i].(flipped := true));
      FlipAsWritten(s, i)
  }

  /** The points of a match (`baseScore + streakBonus + comboBonus +
      timeBonus`): 100 per level, 50 per match of the streak so far, 25
      per match of the combo so far, and half the seconds left when the
      pair was turned, rounded down. */
  function MatchPoints(level: nat, streak: nat, combo: nat, timeLeft: nat): (p: nat)
    ensures var bonus := p - (100 * (level + 1) + 50 * streak + 25 * combo);
      && p >= 100 * (level + 1) + 50 * streak + 25 * combo
      && 2 * bonus <= timeLeft < 2 * bonus + 2
  {
    100 * (level + 1) + 50 * streak + 25 * combo + timeLeft / 2
  }

  /** The turn's two cards are in the deck. */
  predicate TurnComplete(s: Session) {
    |s.pending| == 2 && s.pending[0] < |s.cards| && s.pending[1] < |s.cards|
  }

  /** The callback a complete turn leaves waiting. On a match both cards
      are marked matched (and stay face up), the turn ends, matches, streak
      and combo go up, the points are added with the streak and combo from
      before, and when that was the level's last pair the level complete
      callback is left waiting. On a mismatch both cards turn face down, the
      turn ends and the streak is broken; the combo is kept. */
  function Resolve(s: Session): (r: Session)
    requires s.level < |Levels| && TurnComplete(s)
    ensures r.pending == [] && r.score >= s.score && r.matches >= s.matches
    ensures Valid(s) ==> Valid(r)
    ensures var a, b := s.pending[0], s.pending[1];
      && (s.cards[a].kind == s.cards[b].kind ==>
            && r.cards == s.cards[a := s.cards[a].(flipped := true, matched := true)]
                                 [b := s.cards[b].(flipped := true, matched := true)]
            && r.matches == s.matches + 1 && r.streak == s.streak + 1 && r.combo == s.combo + 1
            && r.score == s.score + MatchPoints(s.level, s.streak, s.combo, s.flipTime)
            && (r.completionDue <==> s.completionDue || s.matches + 1 >= Levels[s.level].pairs))
      && (s.cards[a].kind != s.cards[b].kind ==>
            && r.cards == s.cards[a := s.cards[a].(flipped := false)][b := s.cards[b].(flipped := false)]
            && r.matches == s.matches && r.streak == 0 && r.combo == s.combo && r.score == s.score)
  {
    var a, b := s.pending[0], s.pending[1];
    if s.cards[a].kind == s.cards[b].kind then
      var c1 := s.cards[a := s.cards[a].(flipped := true, matched := true)];
      var c2 := c1[b := c1[b].(flipped := true, matched := true)];
      CountAfterUpdate(s.cards, a, c1[a]);
      CountAfterUpdate(c1, b, c2[b]);
      s.(cards := c2, pending := [], matches := s.matches + 1, streak := s.streak + 1,
         combo := s.combo + 1, score := s.score + MatchPoints(s.level, s.streak, s.combo, s.flipTime),
         completionDue := s.completionDue || s.matches + 1 >= Levels[s.level].pairs)
    else
      var c1 := s.cards[a := s.cards[a].(flipped := false)];
      var c2 := c1[b := c1[b].(flipped := false)];
      CountAfterUpdate(s.cards, a, c1[a]);
      CountAfterUpdate(c1, b, c2[b]);
      s.(cards := c2, pending := [], streak := 0)
  }

  /** The level complete callback: it shows the level complete screen,
      whatever the phase by then. */
  function CompleteLevel(s: Session): (r: Session)
    requires Valid(s) && s.completionDue
    ensures Valid(r)
    ensures r == s.(phase := LevelComplete, completionDue := false)
    ensures forall i :: 0 <= i < |r.cards| ==> r.cards[i].matched
  {
    AllMatched(s);
    s.(phase := LevelComplete, completionDue := false)
  }

  /** When the level complete callback is waiting, every card is matched. */
  lemma AllMatched(s: Session)
    requires Valid(s) && s.completionDue
    ensures forall i :: 0 <= i < |s.cards| ==> s.cards[i].matched
  {
    AllMatchedIffCount(s.cards);
  }

  // ---------------------------------------------------------------------
  // Peeking

  /** The peek button: during play and with more than five moves left,
      every card is turned face up for a five-move charge. */
  function Peek(s: Session): (r: Session)
    requires Valid(s)
    ensures Valid(r) && r.score == s.score && r.matches == s.matches && r.pending == s.pending
    ensures s.phase != Playing || s.movesLeft <= 5 ==> r == s
    ensures s.phase == Playing && s.movesLeft > 5 ==>
      && r.movesLeft + 5 == s.movesLeft && r.peeksShowing == s.peeksShowing + 1
      && |r.cards| == |s.cards| && forall i :: 0 <= i < |r.cards| ==> r.cards[i] == s.cards[i].(flipped := true)
  {
    if s.phase == Playing && s.movesLeft > 5 then
      s.(cards := ShowAll(s.cards), movesLeft := s.movesLeft - 5, peeksShowing := s.peeksShowing + 1)
    else s
  }

  /** The peek's callback two seconds later: every unmatched card face
      down, pending ones included. */
  function PeekEnd(s: Session): (r: Session)
    requires Valid(s) && s.peeksShowing > 0
    ensures Valid(r) && r.score == s.score && r.pending == s.pending
    ensures |r.cards| == |s.cards|
    ensures forall i :: 0 <= i < |s.cards| ==>
      r.cards[i].matched == s.cards[i].matched && (r.cards[i].flipped <==> s.cards[i].matched)
  {
    s.(cards := HideUnmatched(s.cards), peeksShowing := s.peeksShowing - 1)
  }

  /** With one card pending, a peek and its end leave that card face down
      while still pending; clicking it again passes every check of the page,
      so the card is paired with itself and one matched card is counted as
      a whole pair. The intended click ignores it. */
  lemma PeekLetsCardMatchItself(s: Session, i: nat)
    requires Valid(s) && s.phase == Playing && s.movesLeft > 5 && i < |s.cards| && s.pending == [i]
    ensures var t := PeekEnd(Peek(s));
      && i < |t.cards| && t.pending == [i] && !t.cards[i].flipped
      && FlipAsWritten(t, i).pending == [i, i]
      && TurnComplete(FlipAsWritten(t, i))
      && Flip(t, i) == t
  {
    assert s.pending[0] == i;
  }

  /** What the page's flip leads to from there: the card paired with
      itself resolves as a match that counts one more match for only one
      more matched card, so the deck no longer adds up. */
  lemma SelfMatchBreaksCount(t: Session, i: nat)
    requires Valid(t) && t.phase == Playing && t.movesLeft > 0
    requires i < |t.cards| && t.pending == [i] && !t.cards[i].flipped
    ensures var u := Resolve(FlipAsWritten(t, i));
      && u.matches == t.matches + 1
      && CountMatched(u.cards) == CountMatched(t.cards) + 1
      && !DeckOk(u.cards, u.pending, u.matches)
  {
    assert t.pending[0] == i;
    var f := FlipAsWritten(t, i);
    CountAfterUpdate(t.cards, i, f.cards[i]);
    var c1 := f.cards[i := f.cards[i].(flipped := true, matched := true)];
    CountAfterUpdate(f.cards, i, c1[i]);
    assert c1[i := c1[i].(flipped := true, matched := true)] == c1;
  }

  // ---------------------------------------------------------------------
  // Levels

  /** `nextLevel`: after the last level the game is complete (the clock is
      left running); otherwise the next level is dealt. The score is kept. */
  function NextLevel(s: Session, perm: seq<nat>): (r: Session)
    requires Valid(s) && s.phase != Idle
    requires s.level + 1 < |Levels| ==> IsPermutation(perm, Levels[s.level + 1].grid)
    ensures Valid(r) && r.score == s.score
    ensures s.level + 1 == |Levels| ==> r == s.(phase := GameComplete)
    ensures s.level + 1 < |Levels| ==> FreshLevel(r, s.level + 1)
  {
    if s.level + 1 >= |Levels| then s.(phase := GameComplete)
    else DealLevel(s, s.level + 1, perm)
  }

  // ---------------------------------------------------------------------
  // Runs of events

  datatype Event =
    | Start(perm: seq<nat>)
    | Second
    | Click(index: nat)
    | TurnResolves
    | LevelCompletes
    | PeekNow
    | PeekEnds
    | Advance(perm: seq<nat>)

  /** When each event can happen: cards are clicked where they are shown,
      callbacks fire only when waiting, and the next level button is only on
      the level complete screen. */
  predicate CanApply(s: Session, e: Event)
    requires Valid(s)
  {
    match e
    case Start(perm) => IsPermutation(perm, 4)
    case Second => true
    case Click(i) => i < |s.cards|
    case TurnResolves => |s.pending| == 2
    case LevelCompletes => s.completionDue
    case PeekNow => true
    case PeekEnds => s.peeksShowing > 0
    case Advance(perm) =>
      s.phase == LevelComplete && (s.level + 1 < |Levels| ==> IsPermutation(perm, Levels[s.level + 1].grid))
  }

  /** The score only grows, and so do the matches except when a new level
      is dealt. */
  predicate Kept(s: Session, r: Session) {
    r.score >= s.score && (r.level == s.level ==> r.matches >= s.matches)
  }

  function Apply(s: Session, e: Event): (r: Session)
    requires Valid(s) && CanApply(s, e)
    ensures Valid(r)
    ensures !e.Start? ==> Kept(s, r) && r.level >= s.level
  {
    match e
    case Start(perm) => StartGame(perm)
    case Second => Tick(s)
    case Click(i) => Flip(s, i)
    case TurnResolves => Resolve(s)
    case LevelCompletes => CompleteLevel(s)
    case PeekNow => Peek(s)
    case PeekEnds => PeekEnd(s)
    case Advance(perm) => NextLevel(s, perm)
  }

  predicate Runs(s: Session, es: seq<Event>)
    requires Valid(s)
    decreases |es|
  {
    es == [] || (CanApply(s, es[0]) && Runs(Apply(s, es[0]), es[1..]))
  }

  /** The session after the events `es`; every session on the way is
      valid, so the deck invariant holds throughout. */
  function Run(s: Session, es: seq<Event>): (r: Session)
    requires Valid(s) && Runs(s, es)
    ensures Valid(r) && DeckOk(r.cards, r.pending, r.matches)
    decreases |es|
  {
    if es == [] then s else Run(Apply(s, es[0]), es[1..])
  }

  /** Without a restart the score never goes down over any run. */
  lemma {:induction false} RunKeepsScore(s: Session, es: seq<Event>)
    requires Valid(s) && Runs(s, es)
    requires forall i :: 0 <= i < |es| ==> !es[i].Start?
    ensures Run(s, es).score >= s.score
    decreases |es|
  {
    if es != [] {
      RunKeepsScore(Apply(s, es[0]), es[1..]);
    }
  }
}
