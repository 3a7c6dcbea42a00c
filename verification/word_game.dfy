/** The Word Challenge session: one state value holding what the page keeps
    in React state, and one function per handler. A step that the page runs
    later through `setTimeout` is a separate step here (`Continue`); the
    `Continuation` records which callback is waiting and what it captured. */
module WordGame {
  import opened Text
  import opened WordCatalog
  import opened WordPuzzle
  import Countdown

  datatype Phase = Idle | Playing | ShowingCorrect | ShowingIncorrect | TimedOut | LevelComplete | GameComplete

  /** The callback a check leaves behind for 1.5 seconds later. After a
      correct word it carries the time left when the check ran, which is the
      value its `nextWord` closure reads. */
  datatype Continuation = NothingDue | AfterCorrect(timeAtCheck: nat) | AfterIncorrect

  datatype Session = Session(
    phase: Phase,
    level: nat,
    score: nat,
    hintsUsed: nat,
    clock: Countdown.Clock,
    words: seq<GameWord>,
    index: nat,
    hintShown: bool,
    streak: nat,
    due: Continuation)

  /** The page before the first start: idle, level 1's time shown, no words. */
  const Initial: Session := Session(Idle, 0, 0, 0, Countdown.Clock(90, false), [], 0, false, 0, NothingDue)

  /** What every reachable session satisfies: a level of the table, no more
      time than that level grants, well-formed words, and a current word
      whenever the game has started. */
  predicate Valid(s: Session) {
    && s.level < |Levels|
    && s.clock.timeLeft <= Levels[s.level].time
    && (forall i :: 0 <= i < |s.words| ==> WellFormed(s.words[i]))
    && (s.phase != Idle ==> s.index < |s.words|)
    && (s.phase == Idle ==> !s.clock.running && s.due == NothingDue)
    && (s.phase == TimedOut ==> !s.clock.running)
  }

  predicate HasWord(s: Session) {
    s.index < |s.words|
  }

  function Current(s: Session): GameWord
    requires HasWord(s)
  {
    s.words[s.index]
  }

  lemma InitialIsValid()
    ensures Valid(Initial) && Initial.phase == Idle && !Initial.clock.running
  {
  }

  /** A freshly dealt level: its words, the first one current, the level's
      full time on a running clock. */
  predicate FreshLevel(s: Session, levelIndex: nat)
    requires levelIndex < |Levels|
  {
    && s.phase == Playing
    && s.level == levelIndex
    && s.index == 0
    && !s.hintShown
    && s.streak == 0
    && s.due == NothingDue
    && s.clock == Countdown.Start(Levels[levelIndex].time)
    && |s.words| == Levels[levelIndex].wordsPerLevel
    && (forall i :: 0 <= i < |s.words| ==> Untouched(s.words[i]))
    && (forall i :: 0 <= i < |s.words| ==>
          |s.words[i].missing| == Min(Levels[levelIndex].missingLetters, |ValidIndices(s.words[i].original)|))
  }

  /** Deals level `levelIndex`'s words onto `s`, which carries the score and
      hint count forward. */
  function DealLevel(s: Session, levelIndex: nat, draw: WordDraw): (r: Session)
    requires levelIndex < |Levels| && DrawFits(levelIndex, draw)
    ensures FreshLevel(r, levelIndex) && Valid(r)
    ensures r.score == s.score && r.hintsUsed == s.hintsUsed
  {
    PoolsAreLargeEnough(levelIndex);
    var words := GenerateLevelWords(levelIndex, draw);
    s.(phase := Playing, level := levelIndex, words := words, index := 0, hintShown := false,
       streak := 0, due := NothingDue, clock := Countdown.Start(Levels[levelIndex].time))
  }

  /** `startGame` (also `restartGame`): level 1 from scratch, whatever the
      session held before. A callback still waiting from before is dropped. */
  function StartGame(draw: WordDraw): (r: Session)
    requires DrawFits(0, draw)
    ensures Valid(r) && FreshLevel(r, 0)
    ensures r.score == 0 && r.hintsUsed == 0
    ensures r.clock.timeLeft == 90 && |r.words| == 5
  {
    DealLevel(Initial, 0, draw)
  }

  /** One firing of the interval. Whatever the phase, the firing that finds
      one second or less left ends the game with a timeout. */
  function Tick(s: Session): (r: Session)
    requires Valid(s)
    ensures Kept(s, r)
    ensures Valid(r)
    ensures r.clock == Countdown.Tick(s.clock)
    ensures r.phase == (if Countdown.Expires(s.clock) then TimedOut else s.phase)
    ensures r == s.(clock := r.clock, phase := r.phase)
  {
    var c := Countdown.Tick(s.clock);
    if Countdown.Expires(s.clock) then s.(clock := c, phase := TimedOut) else s.(clock := c)
  }

  // ---------------------------------------------------------------------
  // Typing

  /** A typed value is kept when, upper-cased and stripped of everything but
      A-Z, it holds at most one letter. */
  predicate Accepted(value: string) {
    |Sanitize(value)| <= 1
  }

  /** The box at `pos` of the current word holds what its input field can
      change: a hidden position. */
  predicate TypesIntoBox(s: Session, pos: nat) {
    s.phase != Idle ==> HasWord(s) && pos in Current(s).missing
  }

  /** `handleLetterInput` up to the auto-check: outside play, or when the
      value holds two letters or more, nothing changes; otherwise the box at
      `pos` holds the sanitised value and nothing else changes. */
  function EnterLetter(s: Session, pos: nat, value: string): (r: Session)
    requires Valid(s) && TypesIntoBox(s, pos)
    ensures Valid(r)
    ensures s.phase != Playing || !Accepted(value) ==> r == s
    ensures s.phase == Playing && Accepted(value) ==>
      && r == s.(words := r.words)
      && |r.words| == |s.words|
      && (forall j :: 0 <= j < |s.words| && j != s.index ==> r.words[j] == s.words[j])
      && var w, v := Current(s), Current(r);
         && v == w.(input := v.input)
         && |v.input| == |w.input|
         && v.input[pos] == Sanitize(value)
         && (v.input[pos] == [] || (|v.input[pos]| == 1 && IsUpperLetter(v.input[pos][0])))
         && (forall k :: 0 <= k < |w.input| && k != pos ==> v.input[k] == w.input[k])
  {
    if s.phase != Playing || !Accepted(value) then s
    else
      var w := Current(s);
      s.(words := s.words[s.index := w.(input := w.input[pos := Sanitize(value)])])
  }

  /** Every hidden box of `w` holds exactly one character. */
  predicate AllFilled(w: GameWord) {
    forall k :: 0 <= k < |w.input| && k in w.missing ==> |w.input[k]| == 1
  }

  /** `handleLetterInput` as a whole: the letter is entered and, when that
      fills the last empty hidden box, the word is checked. The check is
      taken to happen at once rather than 100 ms later. */
  function Input(s: Session, pos: nat, value: string): (r: Session)
    requires Valid(s) && TypesIntoBox(s, pos)
    ensures Kept(s, r)
    ensures Valid(r) && r.score >= s.score
    ensures s.phase != Playing ==> r == s
    ensures r.phase != s.phase <==>
      && s.phase == Playing
      && |Sanitize(value)| == 1
      && (forall k :: 0 <= k < |Current(s).input| && k in Current(s).missing && k != pos ==>
            |Current(s).input[k]| == 1)
    ensures r.phase == s.phase ==> r == EnterLetter(s, pos, value)
    ensures r.phase != s.phase ==> r == CheckWord(EnterLetter(s, pos, value))
  {
    var t := EnterLetter(s, pos, value);
    if s.phase == Playing && Accepted(value) then
      FilledAfterEntry(Current(s), Current(t), pos);
      if AllFilled(Current(t)) then CheckWord(t) else t
    else t
  }

  /** After one box of a word changes, the word is full exactly when that
      box holds one character and every other hidden box already did. */
  lemma FilledAfterEntry(w: GameWord, v: GameWord, pos: nat)
    requires WellFormed(w) && pos in w.missing
    requires v == w.(input := v.input) && |v.input| == |w.input|
    requires forall k :: 0 <= k < |w.input| && k != pos ==> v.input[k] == w.input[k]
    ensures pos < |v.input|
    ensures AllFilled(v) <==>
      && |v.input[pos]| == 1
      && forall k :: 0 <= k < |w.input| && k in w.missing && k != pos ==> |w.input[k]| == 1
  {
    var i :| 0 <= i < |w.missing| && w.missing[i] == pos;
  }

  // ---------------------------------------------------------------------
  // Checking

  /** The points a correct word earns (`Math.max(base + streakBonus -
      hintPenalty, 50)`): 100 per level, 20 per word of the streak so far,
      less ten times the level's hint cost when a hint was shown, and never
      less than 50. */
  function WordPoints(level: nat, streak: nat, hintShown: bool): (p: nat)
    requires level < |Levels|
    ensures p >= 50
    ensures p + HintPenalty(level, hintShown) >= 100 * (level + 1) + 20 * streak
    ensures p == 50 || p + HintPenalty(level, hintShown) == 100 * (level + 1) + 20 * streak
  {
    var raw := 100 * (level + 1) + 20 * streak - HintPenalty(level, hintShown);
    if raw >= 50 then raw else 50
  }

  function HintPenalty(level: nat, hintShown: bool): nat
    requires level < |Levels|
  {
    if hintShown then Levels[level].hintCost * 10 else 0
  }

  /** The floor of 50 never applies: a level's hint penalty is exactly half
      its base points, so a hinted word still earns 50 per level. */
  lemma PointsFloorNeverApplies(level: nat, streak: nat, hintShown: bool)
    requires level < |Levels|
    ensures WordPoints(level, streak, hintShown) == (if hintShown then 50 else 100) * (level + 1) + 20 * streak
  {
    assert Levels[level].hintCost * 10 == 50 * (level + 1) by {
      assert level == 0 || level == 1 || level == 2 || level == 3 || level == 4;
    }
  }

  /** The letter states after a check: every hidden box is marked correct
      or incorrect, the shown boxes keep their state. */
  function MarkLetters(w: GameWord): (states: seq<LetterState>)
    requires WellFormed(w)
    ensures |states| == |w.original|
    ensures forall k :: 0 <= k < |w.original| ==>
      states[k] == (if k !in w.missing then w.states[k]
                    else if w.input[k] == [w.original[k]] then Correct else Incorrect)
  {
    seq(|w.original|, k requires 0 <= k < |w.original| =>
      if k in w.missing then (if w.input[k] == [w.original[k]] then Correct else Incorrect)
      else w.states[k])
  }

  /** The current word after `checkWord`: every hidden box marked, and the
      word solved exactly when the joined boxes spell it, which is exactly
      when every hidden box holds its right letter. */
  function Checked(w: GameWord): (v: GameWord)
    requires WellFormed(w)
    ensures WellFormed(v)
    ensures v == w.(states := v.states, solved := v.solved)
    ensures |v.states| == |w.states|
    ensures v.solved <==> forall k :: 0 <= k < |w.original| && k in w.missing ==> w.input[k] == [w.original[k]]
    ensures v.solved <==> forall k :: 0 <= k < |w.original| && k in w.missing ==> v.states[k] == Correct
    ensures forall k :: 0 <= k < |w.original| && k !in w.missing ==> v.states[k] == w.states[k]
  {
    assert forall k :: 0 <= k < |w.input| ==> |w.input[k]| <= 1;
    JoinOfSingles(w.input, w.original);
    w.(states := MarkLetters(w), solved := Join(w.input) == w.original)
  }

  /** `checkWord`: the current word is checked and the verdict shown. A
      correct word extends the streak and scores `WordPoints` for the streak
      before it; a wrong one breaks the streak. Either way the matching
      callback is left waiting. The page does not check the phase here. */
  function CheckWord(s: Session): (r: Session)
    requires Valid(s) && HasWord(s)
    ensures Kept(s, r)
    ensures Valid(r) && r.score >= s.score
    ensures r.index == s.index && |r.words| == |s.words| && Current(r) == Checked(Current(s))
    ensures forall j :: 0 <= j < |s.words| && j != s.index ==> r.words[j] == s.words[j]
    ensures Current(r).solved ==>
      r == s.(words := r.words, phase := ShowingCorrect, streak := s.streak + 1,
              score := s.score + WordPoints(s.level, s.streak, s.hintShown),
              due := AfterCorrect(s.clock.timeLeft))
    ensures !Current(r).solved ==>
      r == s.(words := r.words, phase := ShowingIncorrect, streak := 0, due := AfterIncorrect)
  {
    var v := Checked(Current(s));
    var words := s.words[s.index := v];
    if v.solved then
      s.(words := words, phase := ShowingCorrect, streak := s.streak + 1,
         score := s.score + WordPoints(s.level, s.streak, s.hintShown),
         due := AfterCorrect(s.clock.timeLeft))
    else
      s.(words := words, phase := ShowingIncorrect, streak := 0, due := AfterIncorrect)
  }

  // ---------------------------------------------------------------------
  // Hints

  /** The positions among `ms` whose box does not hold the right letter. */
  function UnsolvedAmong(w: GameWord, ms: seq<nat>): (u: seq<nat>)
    requires forall i :: 0 <= i < |ms| ==> ms[i] < |w.input| && ms[i] < |w.original|
    ensures |u| <= |ms|
    ensures forall k :: k in u <==> k in ms && k < |w.input| && k < |w.original| && w.input[k] != [w.original[k]]
  {
    if ms == [] then []
    else
      var k := ms[0];
      (if w.input[k] != [w.original[k]] then [k] else []) + UnsolvedAmong(w, ms[1..])
  }

  /** The hidden positions whose box is empty or wrong (`unsolvedIndices`). */
  function Unsolved(w: GameWord): (u: seq<nat>)
    requires WellFormed(w)
    ensures forall k :: k in u <==> k in w.missing && k < |w.original| && w.input[k] != [w.original[k]]
  {
    UnsolvedAmong(w, w.missing)
  }

  /** `useHint`: once per word, during play, and only while some hidden box
      is empty or wrong: the unsolved position picked by `choice` gets its
      right letter, shown as revealed. `choice` stands for the random pick
      and is taken modulo the number of unsolved positions. */
  function Hint(s: Session, choice: nat): (r: Session)
    requires Valid(s)
    ensures Kept(s, r)
    ensures Valid(r) && r.score == s.score
    ensures s.phase != Playing || s.hintShown || Unsolved(Current(s)) == [] ==> r == s
    ensures r != s ==>
      && s.phase == Playing && !s.hintShown
      && r == s.(words := r.words, hintShown := true, hintsUsed := s.hintsUsed + 1)
      && |r.words| == |s.words|
      && (forall j :: 0 <= j < |s.words| && j != s.index ==> r.words[j] == s.words[j])
      && exists p :: p in Unsolved(Current(s)) && Reveals(Current(s), Current(r), p)
  {
    if s.phase != Playing || s.hintShown then s
    else
      var w := Current(s);
      var us := Unsolved(w);
      if us == [] then s
      else
        var p := us[choice % |us|];
        assert p in us;
        var v := Reveal(w, p);
        ReplacedWordsWellFormed(s.words, s.index, v, s.words[s.index := v]);
        s.(words := s.words[s.index := v], hintShown := true, hintsUsed := s.hintsUsed + 1)
  }

  /** The hidden position `p` of `w` holding its right letter, shown as
      revealed. */
  function Reveal(w: GameWord, p: nat): (v: GameWord)
    requires WellFormed(w) && p in w.missing
    ensures WellFormed(v) && Reveals(w, v, p)
  {
    w.(input := w.input[p := [w.original[p]]], states := w.states[p := Revealed])
  }

  /** Putting a well-formed word in place of one keeps every word well formed. */
  lemma ReplacedWordsWellFormed(words: seq<GameWord>, i: nat, v: GameWord, replaced: seq<GameWord>)
    requires forall j :: 0 <= j < |words| ==> WellFormed(words[j])
    requires i < |words| && WellFormed(v) && replaced == words[i := v]
    ensures forall j :: 0 <= j < |replaced| ==> WellFormed(replaced[j])
  {
  }

  /** `v` is `w` with the box at `p` holding its right letter, shown as
      revealed, and nothing else changed. */
  predicate Reveals(w: GameWord, v: GameWord, p: nat) {
    && p < |w.original| && |w.input| == |w.original| && |w.states| == |w.original|
    && v == w.(input := v.input, states := v.states)
    && |v.input| == |w.input| && |v.states| == |w.states|
    && v.input[p] == [w.original[p]] && v.states[p] == Revealed
    && (forall k :: 0 <= k < |w.input| && k != p ==> v.input[k] == w.input[k] && v.states[k] == w.states[k])
  }

  /** A hint fixes exactly one unsolved position: the word has one unsolved
      position fewer afterwards. */
  lemma HintSolvesOne(w: GameWord, v: GameWord, p: nat)
    requires WellFormed(w) && WellFormed(v) && p in Unsolved(w) && Reveals(w, v, p)
    ensures |Unsolved(v)| + 1 == |Unsolved(w)|
  {
    UnsolvedAmongDrops(w, v, p, w.missing);
  }

  lemma {:induction false} UnsolvedAmongDrops(w: GameWord, v: GameWord, p: nat, ms: seq<nat>)
    requires forall i :: 0 <= i < |ms| ==> ms[i] < |w.input| && ms[i] < |w.original|
    requires StrictlyIncreasing(ms)
    requires Reveals(w, v, p) && p in ms && w.input[p] != [w.original[p]]
    ensures |UnsolvedAmong(v, ms)| + 1 == |UnsolvedAmong(w, ms)|
  {
    var k := ms[0];
    if k == p {
      assert p !in ms[1..];
      UnsolvedAmongSame(w, v, p, ms[1..]);
    } else {
      assert v.input[k] == w.input[k];
      UnsolvedAmongDrops(w, v, p, ms[1..]);
    }
  }

  lemma {:induction false} UnsolvedAmongSame(w: GameWord, v: GameWord, p: nat, ms: seq<nat>)
    requires forall i :: 0 <= i < |ms| ==> ms[i] < |w.input| && ms[i] < |w.original|
    requires Reveals(w, v, p) && p !in ms
    ensures UnsolvedAmong(v, ms) == UnsolvedAmong(w, ms)
  {
    if ms != [] {
      assert v.input[ms[0]] == w.input[ms[0]];
      UnsolvedAmongSame(w, v, p, ms[1..]);
    }
  }

  /** A second hint on the same word changes nothing. */
  lemma HintOncePerWord(s: Session, first: nat, second: nat)
    requires Valid(s)
    ensures Hint(Hint(s, first), second) == Hint(s, first)
  {
  }

  // ---------------------------------------------------------------------
  // Moving on

  /** `nextWord`: the following word, or, after the last one, the level
      complete screen with the clock stopped and ten points for every second
      left. `timeLeft` is the value the caller's closure captured. */
  function NextWord(s: Session, timeLeft: nat): (r: Session)
    requires Valid(s) && HasWord(s)
    ensures Valid(r) && r.score >= s.score
    ensures s.index + 1 < |s.words| ==> r == s.(index := s.index + 1, hintShown := false)
    ensures s.index + 1 == |s.words| ==>
      r == s.(phase := LevelComplete, clock := Countdown.Stop(s.clock), score := s.score + 10 * timeLeft)
  {
    if s.index < |s.words| - 1 then s.(index := s.index + 1, hintShown := false)
    else s.(phase := LevelComplete, clock := Countdown.Stop(s.clock), score := s.score + timeLeft * 10)
  }

  /** The waiting callback as the page runs it 1.5 seconds after a check:
      after a correct word `nextWord()` and then `setGameState('playing')`,
      after a wrong one `setGameState('playing')`, whatever happened in
      between. */
  function ContinueAsWritten(s: Session): (r: Session)
    requires Valid(s)
    ensures Valid(r) && r.due == NothingDue
    ensures s.due.AfterCorrect? && s.index + 1 == |s.words| ==>
      r.phase == Playing && !r.clock.running
    ensures s.due.AfterIncorrect? ==> r.phase == Playing
    ensures !s.due.NothingDue? ==> r.phase == Playing && (!s.clock.running ==> !r.clock.running)
  {
    match s.due
    case NothingDue => s
    case AfterIncorrect => s.(phase := Playing, due := NothingDue)
    case AfterCorrect(t) => NextWord(s.(due := NothingDue), t).(phase := Playing)
  }

  /** The waiting callback as evidently intended: it only acts while its
      verdict is still on screen, and after the last word of a level it
      leaves the level complete screen up. A timeout that came first stands. */
  function Continue(s: Session): (r: Session)
    requires Valid(s)
    ensures Kept(s, r)
    ensures Valid(r) && r.due == NothingDue && r.score >= s.score
    ensures s.phase != ShowingCorrect && s.phase != ShowingIncorrect ==> r == s.(due := NothingDue)
    ensures s.due.AfterIncorrect? && s.phase == ShowingIncorrect ==> r == s.(phase := Playing, due := NothingDue)
    ensures s.due.AfterCorrect? && s.phase == ShowingCorrect ==>
      && (s.index + 1 < |s.words| ==>
            r == s.(phase := Playing, index := s.index + 1, hintShown := false, due := NothingDue))
      && (s.index + 1 == |s.words| ==>
            && r.phase == LevelComplete && !r.clock.running
            && r.score == s.score + 10 * s.due.timeAtCheck
            && r == s.(phase := LevelComplete, clock := r.clock, score := r.score, due := NothingDue))
  {
    match s.due
    case NothingDue => s
    case AfterIncorrect =>
      if s.phase == ShowingIncorrect then s.(phase := Playing, due := NothingDue) else s.(due := NothingDue)
    case AfterCorrect(t) =>
      if s.phase == ShowingCorrect then
        var a := NextWord(s.(due := NothingDue), t);
        if a.phase == LevelComplete then a else a.(phase := Playing)
      else s.(due := NothingDue)
  }

  /** The level complete screen cannot be reached as the page is written:
      after the last word's check its callback replaces it with play on a
      stopped clock, while the intended callback keeps it. */
  lemma LevelCompleteIsOverwritten(s: Session)
    requires Valid(s) && s.phase == ShowingCorrect && s.due.AfterCorrect? && s.index + 1 == |s.words|
    ensures ContinueAsWritten(s).phase == Playing && !ContinueAsWritten(s).clock.running
    ensures Continue(s).phase == LevelComplete
  {
  }

  /** A timeout during the 1.5 seconds a verdict is shown does not end the
      game as the page is written: the callback that follows puts the
      player back into play on the stopped clock. The intended callback
      leaves the timeout screen up. */
  lemma TimeoutIsOverwritten(s: Session)
    requires Valid(s) && s.phase == TimedOut && !s.due.NothingDue?
    ensures ContinueAsWritten(s).phase == Playing && !ContinueAsWritten(s).clock.running
    ensures Continue(s).phase == TimedOut
  {
  }

  /** `nextLevel`: after the last level the game is complete; otherwise the
      next level is dealt with its own time on a fresh clock, the streak and
      the hint reset, score and hint count carried over. */
  function NextLevel(s: Session, draw: WordDraw): (r: Session)
    requires Valid(s) && s.phase != Idle
    ensures Kept(s, r)
    requires s.level + 1 < |Levels| ==> DrawFits(s.level + 1, draw)
    ensures Valid(r) && r.score == s.score && r.hintsUsed == s.hintsUsed
    ensures s.level + 1 == |Levels| ==> r == s.(phase := GameComplete)
    ensures s.level + 1 < |Levels| ==> FreshLevel(r, s.level + 1)
  {
    if s.level + 1 >= |Levels| then s.(phase := GameComplete)
    else DealLevel(s, s.level + 1, draw)
  }

  // ---------------------------------------------------------------------
  // Focus movement

  /** `findNextMissingIndex`: the first hidden position at or after
      `startFrom`, or -1 when there is none. */
  method FindNextMissing(w: GameWord, startFrom: int) returns (r: int)
    ensures r == -1 || (startFrom <= r < |w.original| && r in w.missing)
    ensures r == -1 ==> forall k: nat :: startFrom <= k < |w.original| ==> k !in w.missing
    ensures r != -1 ==> forall k: nat :: startFrom <= k < r ==> k !in w.missing
  {
    var i := startFrom;
    while i < |w.original|
      invariant startFrom <= i || startFrom > |w.original|
      invariant forall k: nat :: startFrom <= k < i ==> k !in w.missing
      decreases |w.original| - i
    {
      if i >= 0 && i as nat in w.missing {
        return i;
      }
      i := i + 1;
    }
    return -1;
  }

  /** `findPreviousMissingIndex`: the last hidden position at or before
      `startFrom`, or -1 when there is none. */
  method FindPreviousMissing(w: GameWord, startFrom: int) returns (r: int)
    ensures r == -1 || (0 <= r <= startFrom && r in w.missing)
    ensures r == -1 ==> forall k: nat :: k <= startFrom ==> k !in w.missing
    ensures r != -1 ==> forall k: nat :: r < k <= startFrom ==> k !in w.missing
  {
    var i := startFrom;
    while i >= 0
      invariant i <= startFrom
      invariant forall k: nat :: i < k <= startFrom ==> k !in w.missing
      decreases i + 1
    {
      if i as nat in w.missing {
        return i;
      }
      i := i - 1;
    }
    return -1;
  }

  // ---------------------------------------------------------------------
  // Runs of events

  /** What the player or the page can do next. */
  datatype Event =
    | Start(draw: WordDraw)
    | Second
    | Type(pos: nat, value: string)
    | Check
    | AskHint(choice: nat)
    | CallbackFires
    | Advance(draw: WordDraw)

  /** When each event can happen: letters go into hidden boxes, the check
      button and the Enter key only work during play, and the next level
      button is only on the level complete screen. */
  predicate CanApply(s: Session, e: Event)
    requires Valid(s)
  {
    match e
    case Start(draw) => DrawFits(0, draw)
    case Second => true
    case Type(pos, _) => TypesIntoBox(s, pos)
    case Check => s.phase == Playing
    case AskHint(_) => true
    case CallbackFires => true
    case Advance(draw) => s.phase == LevelComplete && (s.level + 1 < |Levels| ==> DrawFits(s.level + 1, draw))
  }

  /** Nothing the player has earned is taken away: score, hints used and
      level only grow. */
  predicate Kept(s: Session, r: Session) {
    r.score >= s.score && r.hintsUsed >= s.hintsUsed && r.level >= s.level
  }

  /** One event, with the intended callback. Every event but a restart keeps
      what the player has earned. */
  function Apply(s: Session, e: Event): (r: Session)
    requires Valid(s) && CanApply(s, e)
    ensures Valid(r)
    ensures !e.Start? ==> Kept(s, r)
  {
    match e
    case Start(draw) => StartGame(draw)
    case Second => Tick(s)
    case Type(pos, value) => Input(s, pos, value)
    case Check => CheckWord(s)
    case AskHint(choice) => Hint(s, choice)
    case CallbackFires => Continue(s)
    case Advance(draw) => NextLevel(s, draw)
  }

  /** Every event of `es` can happen when its turn comes. */
  predicate Runs(s: Session, es: seq<Event>)
    requires Valid(s)
    decreases |es|
  {
    es == [] || (CanApply(s, es[0]) && Runs(Apply(s, es[0]), es[1..]))
  }

  /** The session after the events `es`; every session on the way is valid. */
  function Run(s: Session, es: seq<Event>): (r: Session)
    requires Valid(s) && Runs(s, es)
    ensures Valid(r)
    decreases |es|
  {
    if es == [] then s else Run(Apply(s, es[0]), es[1..])
  }

  /** Without a restart, score, hints used and level never go down over
      any run. */
  lemma {:induction false} RunKeeps(s: Session, es: seq<Event>)
    requires Valid(s) && Runs(s, es)
    requires forall i :: 0 <= i < |es| ==> !es[i].Start?
    ensures Kept(s, Run(s, es))
    decreases |es|
  {
    if es != [] {
      var t := Apply(s, es[0]);
      var rest := es[1..];
      assert Kept(s, t) by { assert !es[0].Start?; }
      assert forall i :: 0 <= i < |rest| ==> !rest[i].Start? by {
        forall i | 0 <= i < |rest| ensures !rest[i].Start? { assert rest[i] == es[i + 1]; }
      }
      RunKeeps(t, rest);
      assert Run(s, es) == Run(t, rest);
    }
  }
}
