# Christmas mini-games and gallery components, modelled in Dafny

This project models the logic of a seasonal web site's two single-player
games and three small gallery components.

**Word Challenge.** The player fills in the hidden letters of Christmas
words over five timed levels. The model covers:
- the level table and the word list;
- how a level's words are drawn and which letters are hidden;
- letter entry with its sanitising and the auto-check;
- checking a word and scoring it (streak bonus, hint penalty, 50-point floor);
- the once-per-word hint;
- moving on to the next word and the next level;
- the one-second countdown.

**Memory Match.** The player turns cards two at a time to find pairs, over
five levels. The model covers:
- the level table and the fifteen card faces;
- dealing a shuffled deck of pairs;
- the card-click guards and the two-card turn;
- the move budget;
- match and mismatch resolution with streak and combo scoring;
- the "peek" power-up;
- level progression and the countdown.

**Gallery components.** The model covers:
- the upload dialog: file size check, validation, the record it sends and the reset;
- the like button of a post card, with its in-flight guard;
- the post lightbox: like toggle, comment validation and the share text;
- the anonymous session id kept in browser storage.

Each game session is an immutable value and each handler a pure step
function. Everything the page takes from outside becomes an input:
- A random shuffle is a permutation `seq<nat>`.
- The random letters to hide are a set of positions.
- The random hint pick is a number.
- The clock reading and random part of a session id are a number and a string.
- A remote store call is a success flag.

A callback the page schedules with `setTimeout` is a separate step that the
caller applies later:
- Word Challenge: `WordGame.ContinueAsWritten` as the page runs it, and
  `WordGame.Continue` as corrected (see "## Findings").
- Memory Match: `MatchGame.Resolve`, `MatchGame.CompleteLevel` and `MatchGame.PeekEnd`.

A Memory Match click is `MatchGame.FlipAsWritten` as the page handles it, and
`MatchGame.Flip` as corrected.

The `setInterval` countdown is `Countdown.Tick`.

Each game also has an event type and a reducer (`Apply`, `Run`). The
reducers step the corrected games: Word Challenge's uses `WordGame.Continue`
and Memory Match's uses `MatchGame.Flip`. Over any run of events of a
corrected game, the session's invariant `Valid` holds, and without a restart
the score never goes down. The page's own steps do not keep every part of
that invariant: `MatchGame.SelfMatchBreaksCount` shows the page's click
breaking the count of matched cards.

Modules, one per file:

| module | file | what |
|---|---|---|
| Optional | optional.dfy | `Option` |
| Text | text.dfy | join, letter sanitising, trimming, line splitting, decimal numerals |
| Perms | perms.dfy | permutations standing for random shuffles |
| Countdown | countdown.dfy | the one-second countdown both games use |
| WordCatalog | word_catalog.dfy | Word Challenge levels and words |
| WordPuzzle | word_puzzle.dfy | hidden letters and dealing a level's words |
| WordGame | word_game.dfy | the Word Challenge session |
| MatchCatalog | match_catalog.dfy | Memory Match levels, faces, grid columns |
| MatchDeck | match_deck.dfy | cards, dealing, matched-card counting |
| MatchGame | match_game.dfy | the Memory Match session |
| Posts | posts.dfy | the post record and the like toggle |
| SessionIds | session_ids.dfy | the anonymous session id |
| UploadForm | upload_form.dfy | the upload dialog |
| PostCard | post_card.dfy | a gallery card's like button |
| PostLightbox | post_lightbox.dfy | the enlarged post view |

## Behaviour worth knowing

- **Word scoring.** A word earns `max(100·(level+1) + 20·streak − hint penalty, 50)`. There is no streak multiplier, no per-word time bonus and no level or difficulty multiplier; the level table's `scoreMultiplier` is only displayed. `WordGame.PointsFloorNeverApplies` shows that with the table's hint costs the 50-point floor is never reached.
- **Wrong word.** A wrong word costs only the streak: no time and no points.
- **Level-complete time bonus.** Only Word Challenge adds one, ten points per second left. Memory Match only displays a bonus.
- **No paused phase.** Neither game can be paused.
- **Running out of moves in Memory Match.** This is not a loss. It only blocks further clicks.
- **Combo.** It is not reset on a mismatch, only at a new level or a restart.
- **Word pool.** Every level's pool is large enough (`WordCatalog.PoolsAreLargeEnough`), so every level deals its full count.
- **Memory Match clock.** It is not stopped when a level is completed. A later tick therefore turns the level complete screen into the timeout screen. `MatchGame.Tick` states this, and it acts in every phase.

## Model

| member | source | states |
|---|---|---|
| WordCatalog.CatalogIsGraded | app/word-challenge/page.tsx:34-80 | there are five levels, numbered 1 to 5; each later level gives less time, more words, at least as many missing letters and a higher hint cost |
| WordCatalog.UpToMembers | app/word-challenge/page.tsx:214 | the filtered list holds exactly the catalog entries whose difficulty is at most the bound |
| WordCatalog.PoolsAreLargeEnough | app/word-challenge/page.tsx:212-218 | every level's pool (difficulty up to level+1) holds at least the level's words-per-level, so the slice always takes the full count |
| WordPuzzle.HideableFrom | app/word-challenge/page.tsx:191-194 | ascending positions from `k` on, containing every position that is neither a space nor a hyphen and no other |
| WordPuzzle.GenerateMissingLetters | app/word-challenge/page.tsx:187-208 | strictly ascending (so distinct) positions, never a space or hyphen, exactly min(count, hideable positions) of them; all hideable positions when there are at most `count`, otherwise exactly the drawn ones |
| WordPuzzle.MakeWord | app/word-challenge/page.tsx:220-246 | the built word is untouched: empty boxes exactly at the hidden positions and the letter elsewhere, hidden states exactly there and revealed elsewhere, display `_` exactly there, not solved; it keeps the entry's word, hint and category |
| WordPuzzle.SelectEntries | app/word-challenge/page.tsx:216-218 | the first `n` entries of the shuffled pool, each one an entry of the pool |
| WordPuzzle.GenerateLevelWords | app/word-challenge/page.tsx:212-248 | exactly words-per-level words, each untouched and with min(missing letters, hideable positions) hidden boxes |
| WordPuzzle.LevelWordsComeFromPool | app/word-challenge/page.tsx:212-219 | every dealt word is the word of a catalog entry of difficulty at most level+1, and two dealt words come from different entries |
| Text.Sanitize | app/word-challenge/page.tsx:391 | the result is no longer than the value and holds only A-Z |
| Text.SanitizeOneChar | app/word-challenge/page.tsx:391 | a single letter becomes its upper-case form, any other single character is dropped |
| Text.SanitizeKeepsLetters | app/word-challenge/page.tsx:391 | text that is already A-Z is kept as it is |
| Text.SanitizeIdempotent | app/word-challenge/page.tsx:391 | sanitising twice is sanitising once |
| Text.JoinOfSingles | app/word-challenge/page.tsx:318-319 | boxes of at most one character join to the word exactly when every box holds that word's character at its position |
| Countdown.Tick | app/word-challenge/page.tsx:267-276 | a stopped clock is unchanged; above one second it goes down by one and keeps running; at one second or less it shows 0 and stops |
| Countdown.CountsDown | app/games/page.tsx:214-223 | fewer ticks than the seconds left leave a running clock with that many seconds fewer |
| Countdown.RunsOut | app/games/page.tsx:214-223 | as many ticks as the seconds left (at least one) leave a stopped clock at 0, and it stays there |
| Countdown.StaysStopped | app/games/page.tsx:214-223 | ticks do not move a stopped clock |
| WordGame.InitialIsValid | app/word-challenge/page.tsx:150-160 | the page's starting state is idle, with the clock stopped, and satisfies the session invariant |
| WordGame.DealLevel | app/word-challenge/page.tsx:259-263 | a dealt level is fresh (its words, the first one current, no hint shown, the level's full time on a running clock) and valid; score and hints used are kept |
| WordGame.StartGame | app/word-challenge/page.tsx:252-284 | a new game is at level 1 with score and hints used at 0, 90 seconds and five words |
| WordGame.Tick | app/word-challenge/page.tsx:267-276 | the clock ticks as a countdown; the phase becomes timeout exactly when the tick expires it; nothing else changes |
| WordGame.EnterLetter | app/word-challenge/page.tsx:384-394 | outside play, or for a value with two letters or more, nothing changes; otherwise only the box at `pos` of the current word changes, to the sanitised value, which is empty or one A-Z letter |
| WordGame.Input | app/word-challenge/page.tsx:384-412 | outside play nothing changes; the phase changes exactly when a single letter was typed and every other hidden box already holds one character; when it does not change, the result is the letter entered (`EnterLetter`), and when it does, it is that entry checked (`CheckWord`) |
| WordGame.FilledAfterEntry | app/word-challenge/page.tsx:405-411 | after one hidden box changes, every hidden box holds one character exactly when that box does and every other hidden box already did |
| WordGame.WordPoints | app/word-challenge/page.tsx:346-350 | at least 50 points, and otherwise exactly 100·(level+1) + 20·streak less the hint penalty |
| WordGame.PointsFloorNeverApplies | app/word-challenge/page.tsx:349-350 | with the table's hint costs, a word earns (hint shown ? 50 : 100)·(level+1) + 20·streak, so the floor of 50 never applies |
| WordGame.MarkLetters | app/word-challenge/page.tsx:322-330 | at a hidden position the state is correct when the box holds that letter and incorrect otherwise; other positions keep their state |
| WordGame.Checked | app/word-challenge/page.tsx:316-337 | the word is solved exactly when every hidden box holds its letter, which is exactly when every hidden position is marked correct; only states and solved change |
| WordGame.CheckWord | app/word-challenge/page.tsx:316-382 | only the current word is marked; a solved word adds its points, raises the streak and leaves the correct verdict waiting; a wrong one resets the streak, keeps score and time and leaves the incorrect verdict waiting |
| WordGame.Unsolved | app/word-challenge/page.tsx:466-468 | exactly the hidden positions whose box does not hold the right letter |
| WordGame.Hint | app/word-challenge/page.tsx:463-490 | nothing changes outside play, after a hint on this word, or when no hidden box is wrong; otherwise exactly one unsolved position gets its letter and state revealed, the hint flag is set and hints used goes up by one |
| WordGame.Reveal | app/word-challenge/page.tsx:476-481 | the revealed word stays well formed; only position `p` changes, to its right letter in the revealed state |
| WordGame.HintSolvesOne | app/word-challenge/page.tsx:472-479 | revealing one unsolved position leaves exactly one unsolved position fewer |
| WordGame.HintOncePerWord | app/word-challenge/page.tsx:464 | a second hint on the same word changes nothing |
| WordGame.NextWord | app/word-challenge/page.tsx:286-314 | before the last word the index advances and the hint flag clears; after it, the level is complete, the clock stops and ten points per second left are added |
| WordGame.ContinueAsWritten | app/word-challenge/page.tsx:361-380 | whenever a callback is waiting, the page's callback ends in play, whatever the phase was, and a stopped clock stays stopped; after the last word's check the clock is stopped |
| WordGame.Continue | app/word-challenge/page.tsx:361-381 | the intended callback acts only while its verdict is shown, so a timeout that came first stays: after a wrong word it goes back to play; after a right one it moves to the next word, or after the last word shows the level complete screen with the time bonus |
| WordGame.LevelCompleteIsOverwritten | app/word-challenge/page.tsx:361-363 | from the last word's correct verdict, the page's callback ends in play on a stopped clock while the intended one ends on the level complete screen |
| WordGame.TimeoutIsOverwritten | app/word-challenge/page.tsx:361-380 | from a timeout that came while a verdict was shown, the page's callback ends in play on a stopped clock while the intended one leaves the timeout screen up |
| WordGame.NextLevel | app/word-challenge/page.tsx:492-534 | after the last level only the phase changes, to game complete; otherwise the next level is dealt fresh, with score and hints used kept |
| WordGame.FindNextMissing | app/word-challenge/page.tsx:414-422 | the first hidden position at or after the start, or -1 exactly when there is none |
| WordGame.FindPreviousMissing | app/word-challenge/page.tsx:453-461 | the last hidden position at or before the start, or -1 exactly when there is none |
| WordGame.Apply | app/word-challenge/page.tsx:833-836 | in the corrected game (the intended callback `Continue`), every event the page allows keeps the session valid, and every event but a restart keeps score, hints used and level from going down |
| WordGame.Run | app/word-challenge/page.tsx:252-534 | in the corrected game, every session reached by a run of allowed events is valid |
| WordGame.RunKeeps | app/word-challenge/page.tsx:252-534 | in the corrected game, over any run of events without a restart, score, hints used and level never go down |
| MatchCatalog.LevelsFit | app/games/page.tsx:39-85 | five levels, each with a grid of exactly twice its pairs and no more pairs than there are faces |
| MatchCatalog.FacesAreDistinct | app/games/page.tsx:88-104 | fifteen faces with ids 1 to 15 and pairwise different symbols |
| MatchCatalog.GridCols | app/games/page.tsx:361-368 | the board has between two and five columns |
| MatchCatalog.BoardsAreFull | app/games/page.tsx:361-368 | every level's cards fill whole rows, with no more rows than columns |
| MatchDeck.PairsOf | app/games/page.tsx:167-178 | twice `n` cards: copies 1 and 2 of each of the first `n` faces, in order |
| MatchDeck.Deal | app/games/page.tsx:165-195 | the shuffled deck has 2n cards, all face down and unmatched, and each of the first `n` symbols on exactly two cards |
| MatchDeck.GenerateCards | app/games/page.tsx:165-195 | a level's deck has grid = 2·pairs cards, each a copy (id·100+1 or id·100+2) of one of the level's faces, each face exactly twice, all face down and unmatched |
| MatchDeck.AllMatchedIffCount | app/games/page.tsx:287-288 | the count of matched cards equals the deck size exactly when every card is matched |
| MatchDeck.ShowAll | app/games/page.tsx:680-681 | every card face up, nothing else changed, the matched count kept |
| MatchDeck.HideUnmatched | app/games/page.tsx:684-688 | every unmatched card face down, matched cards as they were, the matched count kept |
| MatchGame.InitialIsValid | app/games/page.tsx:125-140 | the page's starting state satisfies the session invariant |
| MatchGame.DealLevel | app/games/page.tsx:330-338 | a dealt level is fresh (its deck, no turn, no matches, streak and combo 0, the level's time and moves) and valid, with the score kept |
| MatchGame.StartGame | app/games/page.tsx:197-224 | a new game is at level 1 with score 0, 60 seconds, 20 moves and four cards |
| MatchGame.Tick | app/games/page.tsx:214-223 | the clock ticks as a countdown in every phase, level complete included; the phase becomes timeout exactly when the tick expires it |
| MatchGame.FlipAsWritten | app/games/page.tsx:226-249 | the card turns face up and joins the turn exactly when play is on, moves are left, it is face down and unmatched, and fewer than two are pending; nothing else about it is checked |
| MatchGame.Flip | app/games/page.tsx:226-249 | as the page's click, but a pending card is refused; the second card of a turn costs exactly one move; the session stays valid |
| MatchGame.MatchPoints | app/games/page.tsx:261-265 | 100·(level+1) + 50·streak + 25·combo plus half the seconds left, rounded down |
| MatchGame.Resolve | app/games/page.tsx:251-313 | a match marks both cards, adds its points from the values before the match, raises matches, streak and combo, and leaves level completion due when that was the last pair; a mismatch turns both cards down, resets only the streak; the turn ends either way and validity is kept |
| MatchGame.CompleteLevel | app/games/page.tsx:287-296 | the level complete screen is shown whatever the phase was, and every card is matched by then |
| MatchGame.AllMatched | app/games/page.tsx:287-290 | when level completion is due every card is matched |
| MatchGame.Peek | app/games/page.tsx:679-682 | during play with more than five moves, every card face up for exactly five moves; otherwise nothing changes |
| MatchGame.PeekEnd | app/games/page.tsx:684-689 | every unmatched card face down, pending ones included, and matched cards untouched |
| MatchGame.PeekLetsCardMatchItself | app/games/page.tsx:226-240 | after a peek ends, the card pending alone is face down again; the page's click adds it a second time while the intended click ignores it |
| MatchGame.SelfMatchBreaksCount | app/games/page.tsx:251-260 | resolving that card against itself counts one more match for only one more matched card, so the deck no longer adds up |
| MatchGame.NextLevel | app/games/page.tsx:319-353 | after the last level only the phase changes, to game complete; otherwise the next level is dealt fresh with the score kept |
| MatchGame.Apply | app/games/page.tsx:226-353 | in the corrected game (the click `Flip`, which refuses a pending card), every allowed event keeps the session valid; every event but a restart keeps score and level from going down |
| MatchGame.Run | app/games/page.tsx:226-353 | in the corrected game, every session reached by allowed events is valid, and its matched cards number exactly twice its matches; the page's own click breaks this count (`MatchGame.SelfMatchBreaksCount`) |
| MatchGame.RunKeepsScore | app/games/page.tsx:226-353 | in the corrected game, over any run of events without a restart the score never goes down |
| Posts.CallFor | components/post-card.tsx:30-45 | a liked post is unliked and any other is liked, for this post and session |
| Posts.ToggleLike | components/post-card.tsx:30-58 | a refused call changes nothing; an accepted like sets the flag and adds one; an accepted unlike clears the flag and takes one off, never below zero |
| Posts.ToggleRoundTrip | components/post-card.tsx:30-50 | from a consistent state, an accepted like and unlike in turn bring back the state, and each keeps it consistent |
| PostCard.Show | components/post-card.tsx:17-19 | a card starts not liked, with the post's count and nothing in flight |
| PostCard.Click | components/post-card.tsx:21-30 | a click while a call is in flight does nothing; otherwise the card is busy and the like or unlike call goes out |
| PostCard.Finish | components/post-card.tsx:30-61 | the answer toggles the like as the store allowed and frees the card |
| PostCard.SettleAsWritten | components/post-card.tsx:30-61 | as the page handles the answer: the card settles as `Finish` says; the change is reported exactly after an accepted unlike, and the failure is shown after a refused call or an accepted like, whose confetti placement throws |
| PostCard.Settle | components/post-card.tsx:30-61 | as intended: the card settles as `Finish` says, the change is reported exactly when the store accepted the call, and the failure is shown exactly when it refused it |
| PostCard.AcceptedLikeReportsFailure | components/post-card.tsx:41-57 | after an accepted like the page's card shows the like, yet shows the failure and does not report the change; the intended answer reports it |
| PostCard.DoubleClickSendsOnce | components/post-card.tsx:24-25 | a second click before the answer sends nothing, and the answer settles the card as a single click |
| SessionIds.FreshId | components/post-card.tsx:93 | a fresh id begins with `session_` |
| SessionIds.TimestampRoundTrip | components/post-card.tsx:93 | the clock reading can be read back from a fresh id |
| SessionIds.GetSessionId | components/post-card.tsx:90-97 | a stored non-empty id is returned and storage is unchanged; otherwise a fresh id is returned and stored under `sessionId`, with every other key untouched |
| SessionIds.SecondCallSameId | components/post-lightbox.tsx:158-165 | a second call returns the first call's id and leaves storage as it was |
| PostLightbox.ShowPost | components/post-lightbox.tsx:36-42 | the shown count becomes the post's likes count at once, while the flag stays the previous one; the comment form is kept |
| PostLightbox.LikedAnswer | components/post-lightbox.tsx:60-72 | the store's answer to "has this session liked it" becomes the flag, and nothing else changes |
| PostLightbox.StaleFlagChoosesCall | components/post-lightbox.tsx:36-94 | a like click after a new post is shown but before the store's answer sends the call chosen from the previous post's flag: a delete when that flag was set |
| PostLightbox.LikeClick | components/post-lightbox.tsx:74-94 | a click sends nothing exactly when no post is shown; otherwise it sends the delete or insert chosen from the flag on screen, for this post and session |
| PostLightbox.LikeAnswer | components/post-lightbox.tsx:80-101 | a refused call changes nothing; an accepted insert sets the flag and adds one to the current count; an accepted delete clears it and takes one off, never below zero |
| PostLightbox.ClickThenAnswerToggles | components/post-lightbox.tsx:74-101 | a click answered before the next one toggles the like exactly as a card's does |
| PostLightbox.TwoClicksSendTwoInserts | components/post-lightbox.tsx:74-101 | with no in-flight guard, two clicks on a post not yet liked both send an insert, and two accepted inserts add two to the count |
| PostLightbox.ShowPostLikeRoundTrip | components/post-lightbox.tsx:36-101 | a shown post, once the store has answered with a flag that agrees with its count, comes back as shown after an accepted like and an accepted unlike |
| PostLightbox.SubmitComment | components/post-lightbox.tsx:110-139 | nothing is sent exactly when there is no post or the name or text is blank; a sent comment carries name and text untrimmed; an accepted one clears both fields; a refused one changes nothing |
| Text.TrimEmptyIffBlank | components/post-lightbox.tsx:113 | trimming leaves nothing exactly when the text is all white space |
| PostLightbox.ShareText | components/post-lightbox.tsx:144 | the share text starts with the title and is three characters longer than title, caption and footer together |
| PostLightbox.ShareTextLines | components/post-lightbox.tsx:144 | for a one-line title and caption the share text splits into the title, the caption, an empty line and the footer |
| UploadForm.SelectFile | components/upload-modal.tsx:33-48 | no file, or one above 5 MiB, changes nothing; otherwise the image is previewed and becomes the post's image, and nothing else changes |
| UploadForm.ClearImage | components/upload-modal.tsx:157-160 | preview and image are emptied, nothing else changes |
| UploadForm.SelectThenClear | components/upload-modal.tsx:33-48 | picking a file touches only the image: removing the image afterwards gives the dialog as it was without the pick |
| UploadForm.InsertCaption | components/upload-modal.tsx:104-106 | only the caption changes |
| UploadForm.InsertWriteUp | components/upload-modal.tsx:108-110 | only the write-up changes |
| UploadForm.SuggestionsCommute | components/upload-modal.tsx:104-110 | the two suggestion buttons can be used in either order |
| UploadForm.Validate | components/upload-modal.tsx:53-61 | accepted exactly when all six required fields are filled and the write-up is at most 200 characters; a missing field is reported first |
| UploadForm.BuildRecord | components/upload-modal.tsx:66-75 | the record is published, and has no e-mail exactly when the e-mail field is empty |
| UploadForm.RecordRoundTrip | components/upload-modal.tsx:66-75 | the form can be read back from its record, so every field is carried over |
| UploadForm.Submit | components/upload-modal.tsx:50-89 | a rejected form sends nothing and changes nothing; an accepted one sends its record; when stored, the dialog closes with form and preview emptied; when refused, only the uploading flag changes |
| UploadForm.Reset | components/upload-modal.tsx:91-102 | every field and the preview are emptied |
| UploadForm.ResetFormIsRejected | components/upload-modal.tsx:53-56 | an emptied form is rejected for a missing field |

## Left out

- Remote store calls (insert, delete, select) are not modelled. Each becomes a success flag, or, for the lightbox's "has this session liked it" query, a boolean answer.
- Randomness is not modelled and no claim is made about uniformity:
  - shuffles are permutations given as input;
  - the hidden letters are a set given as input;
  - the hint pick is a number given as input.
- The termination of the word page's retry loop that draws distinct letters is not modelled. The drawn positions are given directly.
- Real time is not modelled. Each `setInterval` tick and each `setTimeout` callback is a step applied by the caller.
- The 100 ms delay before the auto-check is taken as immediate.
- Timers left over across a restart are not modelled. A restart drops any callback that is waiting.
- Audio, confetti, focus moves and input references, toasts, feedback messages, animations and all rendering are not modelled. There are two exceptions: `getGridCols`, and, for a gallery card's like, whether the failure toast is shown and whether `onLikeChange` is called (`PostCard.Settled`).
- In the word page's `handleKeyDown`, Enter calls `checkWord()` (app/word-challenge/page.tsx:436-437) and is modelled as the `Check` event. The Backspace and arrow keys are not modelled, because they only move focus. The two search helpers they use are modelled.
- Memory Match's resolve callback writes back the whole deck array captured at click time (shared mutable objects). The model updates only the two turned cards. A deck changed in between, for instance by a peek ending, is not reproduced.
- The file reader is asynchronous. The model takes its data URL as given with the file.
- Only the share text itself is modelled: the browser share sheet, the clipboard fallback and the link.
- Loading comments, the `onSuccess` and `onUpdate` callbacks, the lightbox's `onLikeChange` and the parent dialog's open state are not modelled. The upload dialog's `open` field stands for the `onOpenChange(false)` request.
- The `maxLength` limits on the upload inputs are not modelled, because they bind only the browser's text fields. Validation itself checks only the 200-character write-up limit.
- UploadForm.Submit: the browser's own checks of the form, which run before `handleSubmit`, are not modelled: the `required` fields (components/upload-modal.tsx:177, 192, 216, 239, 251) and the e-mail format of `type="email"` (:259). The `required` check refuses only empty fields, which `Validate` refuses as well. A malformed e-mail such as "abc" is blocked by the browser, while `Submit` sends it. The browser's e-mail syntax rules are outside the page's code.
- PostLightbox.SubmitComment: sending a comment and the store's answer are one step, so the window in which `isSubmitting` disables the send button is not represented.
- MatchGame.PeekEnd: the model hides the unmatched cards of the deck as it is when the peek ends. The page writes back the deck copied at the peek click, with its unmatched cards face down (app/games/page.tsx:684-688). The two differ when the deck changes during the 2 s. For example, two peeks during a matching turn's 500 ms resolve bring the pair back unmatched and face down while the match count stays raised; the model keeps the pair matched. The session holds one deck and no copies of earlier ones, and the corrected game's matched-count invariant (`MatchGame.Run`) rests on that.
- MatchGame.NextLevel: a peek end still waiting when the next level is dealt is dropped. In the page it still runs and writes the previous level's cards over the new level's deck. For example, peek during the last pair's resolve and press Next Level within 2 s: the old, fully matched cards then replace the new deck and no card can be clicked. This is not modelled, for the same reason as the peek end above.
- The gallery, home, admin, terms and privacy pages are not modelled. They are fetch-and-render pages or static markup.
- Strings are sequences of characters with ASCII semantics. Sanitising handles ASCII letters only, and trimming uses a fixed set of white-space characters.
- `lib/types.ts` is used only for the shape of `Post`.
- Posts.ToggleLike: counts are whole numbers, not JavaScript floating-point numbers.
- SessionIds.FreshId: the random part is any string. Its nine base-36 characters are not modelled.

## Findings

| source | as written | input that shows it | evidently intended | confidence | as-written member | corrected member |
|---|---|---|---|---|---|---|
| app/word-challenge/page.tsx:361-363 | after a correct check the delayed callback calls `nextWord()` and then sets the phase to playing; on a level's last word `nextWord` has just set level complete and stopped the clock | the last word of level 1 checked correctly: 1.5 s later the phase is playing, the clock is stopped and the level complete screen never shows | the level complete screen stays up after the last word | not executed | WordGame.ContinueAsWritten | WordGame.Continue |
| app/word-challenge/page.tsx:361-380 | both delayed callbacks set the phase to playing whatever happened in the 1.5 s the verdict was shown | the clock runs out while a verdict is shown: the timeout screen appears, then the callback puts the player back into play on a stopped clock (`WordGame.TimeoutIsOverwritten`) | a timeout during the verdict ends the game | not executed | WordGame.ContinueAsWritten | WordGame.Continue |
| app/games/page.tsx:226-240 | a click is refused only for a face-up, matched or third card; a peek's end turns every unmatched card face down, including the one pending in the current turn | turn one card (pending [i]), peek, let the peek end, click card i again: pending becomes [i, i], the card matches itself, and matches goes up by one for one matched card | a card already pending in this turn cannot be clicked again | not executed | MatchGame.FlipAsWritten | MatchGame.Flip |
| components/post-card.tsx:51-57 | after an accepted like, `triggerConfetti(e.currentTarget)` runs after the awaited store call; React has by then cleared the event's `currentTarget`, so `getBoundingClientRect` on it (:78) throws into the catch | like a post from a card with the store accepting: the card shows the like and the higher count, but "Failed to update like" appears and `onLikeChange` is not called | the element is kept before the call, so an accepted like reports the change and shows no failure | not executed; rests on React clearing `currentTarget` after dispatch | PostCard.SettleAsWritten | PostCard.Settle |
