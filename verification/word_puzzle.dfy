/** The Word Challenge's puzzle generator (`generateMissingLetters`,
    `generateLevelWords`): which words a level asks for and which of their
    letters are hidden. The random choices are inputs. */
module WordPuzzle {
  import opened WordCatalog
  import opened Perms

  /** How one letter box is shown: not yet checked (`hidden`), given
      (`revealed`, also used for a hinted letter), or marked by a check. */
  datatype LetterState = Hidden | Revealed | Correct | Incorrect

  /** One word in play. `input[i]` is what box `i` holds: the letter itself
      at a shown position, `""` or one typed letter at a hidden one. */
  datatype GameWord = GameWord(
    original: string,
    display: string,
    missing: seq<nat>,
    hint: string,
    category: string,
    input: seq<string>,
    states: seq<LetterState>,
    solved: bool)

  /** Spaces and hyphens are never hidden. */
  predicate Hideable(c: char) {
    c != ' ' && c != '-'
  }

  predicate StrictlyIncreasing(xs: seq<nat>) {
    forall i, j :: 0 <= i < j < |xs| ==> xs[i] < xs[j]
  }

  function Min(a: nat, b: nat): nat {
    if a <= b then a else b
  }

  /** The hideable positions of `word` from `k` on, in increasing order. */
  function HideableFrom(word: string, k: nat): (r: seq<nat>)
    ensures StrictlyIncreasing(r)
    ensures forall i :: 0 <= i < |r| ==> k <= r[i] < |word| && Hideable(word[r[i]])
    ensures forall j :: k <= j < |word| && Hideable(word[j]) ==> j in r
    decreases |word| - k
  {
    if k >= |word| then []
    else (if Hideable(word[k]) then [k] else []) + HideableFrom(word, k + 1)
  }

  /** Every position of `word` that is neither a space nor a hyphen. */
  function ValidIndices(word: string): seq<nat>
  {
    HideableFrom(word, 0)
  }

  /** The elements of `xs` as a set. */
  function Elems(xs: seq<nat>): (e: set<nat>)
    ensures forall k :: k in e <==> k in xs
  {
    if xs == [] then {} else {xs[0]} + Elems(xs[1..])
  }

  lemma PrependIncreasing(x: nat, xs: seq<nat>)
    requires StrictlyIncreasing(xs)
    requires forall j :: 0 <= j < |xs| ==> x < xs[j]
    ensures StrictlyIncreasing([x] + xs)
  {
    var r := [x] + xs;
    forall i, j | 0 <= i < j < |r|
      ensures r[i] < r[j]
    {
      if i > 0 {
        assert r[i] == xs[i - 1] && r[j] == xs[j - 1];
      }
    }
  }

  /** The elements of `xs` that belong to `chosen`, in the order of `xs`. */
  function KeepChosen(xs: seq<nat>, chosen: set<nat>): (r: seq<nat>)
    requires StrictlyIncreasing(xs)
    ensures StrictlyIncreasing(r)
    ensures forall k :: k in r <==> k in xs && k in chosen
  {
    if xs == [] then []
    else
      var rest := KeepChosen(xs[1..], chosen);
      assert forall j :: 0 <= j < |rest| ==> xs[0] < rest[j] by {
        forall j | 0 <= j < |rest|
          ensures xs[0] < rest[j]
        {
          assert rest[j] in xs[1..];
        }
      }
      if xs[0] in chosen then
        PrependIncreasing(xs[0], rest);
        [xs[0]] + rest
      else rest
  }

  /** A strictly increasing sequence has as many distinct elements as it
      has entries. */
  lemma {:induction false} IncreasingCardinality(xs: seq<nat>)
    requires StrictlyIncreasing(xs)
    ensures |Elems(xs)| == |xs|
  {
    if xs != [] {
      IncreasingCardinality(xs[1..]);
      assert xs[0] !in Elems(xs[1..]);
    }
  }

  /** What the rejection-sampling loop guarantees when it runs: `count`
      distinct hideable positions. When there are no more hideable positions
      than `count`, the draw is not used. */
  predicate HidingDraw(word: string, count: nat, chosen: set<nat>) {
    |ValidIndices(word)| > count ==>
      && |chosen| == count
      && forall k :: k in chosen ==> k < |word| && Hideable(word[k])
  }

  /** `generateMissingLetters(word, count)`: every hideable position when
      there are at most `count` of them, otherwise the drawn positions in
      increasing order. */
  function GenerateMissingLetters(word: string, count: nat, chosen: set<nat>): (r: seq<nat>)
    requires HidingDraw(word, count, chosen)
    ensures StrictlyIncreasing(r)
    ensures forall i :: 0 <= i < |r| ==> r[i] < |word| && Hideable(word[r[i]])
    ensures |r| == Min(count, |ValidIndices(word)|)
    ensures |ValidIndices(word)| <= count ==>
              forall j :: 0 <= j < |word| && Hideable(word[j]) ==> j in r
    ensures |ValidIndices(word)| > count ==> forall k :: k in r <==> k in chosen
  {
    var valid := ValidIndices(word);
    if |valid| <= count then valid
    else
      assert forall k :: k in chosen ==> k in valid;
      KeepAll(valid, chosen);
      var r := KeepChosen(valid, chosen);
      assert forall i :: 0 <= i < |r| ==> r[i] in chosen;
      r
  }

  /** Keeping the members of `chosen` among `xs`, when all of them are in
      `xs`, keeps every one of them once. */
  lemma KeepAll(xs: seq<nat>, chosen: set<nat>)
    requires StrictlyIncreasing(xs)
    requires forall k :: k in chosen ==> k in xs
    ensures |KeepChosen(xs, chosen)| == |chosen|
  {
    var r := KeepChosen(xs, chosen);
    assert Elems(r) == chosen;
    IncreasingCardinality(r);
  }

  /** A word as it stands during play: its boxes agree with the word
      outside the hidden positions, and each hidden box holds at most one
      character. */
  predicate WellFormed(w: GameWord) {
    && |w.display| == |w.original|
    && |w.input| == |w.original|
    && |w.states| == |w.original|
    && StrictlyIncreasing(w.missing)
    && (forall i :: 0 <= i < |w.missing| ==>
          w.missing[i] < |w.original| && Hideable(w.original[w.missing[i]]))
    && (forall i :: 0 <= i < |w.original| ==>
          w.display[i] == (if i in w.missing then '_' else w.original[i]))
    && (forall i :: 0 <= i < |w.original| && i !in w.missing ==>
          w.input[i] == [w.original[i]] && w.states[i] == Revealed)
    && (forall i :: 0 <= i < |w.original| && i in w.missing ==> |w.input[i]| <= 1)
  }

  /** A word as dealt: nothing typed, nothing checked. */
  predicate Untouched(w: GameWord) {
    && WellFormed(w)
    && !w.solved
    && (forall i :: 0 <= i < |w.original| && i in w.missing ==>
          w.input[i] == "" && w.states[i] == Hidden)
  }

  /** The `GameWord` built for one entry and its hidden positions. */
  function MakeWord(entry: WordEntry, missing: seq<nat>): (w: GameWord)
    requires StrictlyIncreasing(missing)
    requires forall i :: 0 <= i < |missing| ==> missing[i] < |entry.word| && Hideable(entry.word[missing[i]])
    ensures Untouched(w)
    ensures w.original == entry.word && w.missing == missing
    ensures w.hint == entry.hint && w.category == entry.category
  {
    var word := entry.word;
    var display := seq(|word|, i requires 0 <= i < |word| =>
      if word[i] == ' ' then ' '
      else if word[i] == '-' then '-'
      else if i in missing then '_' else word[i]);
    var input := seq(|word|, i requires 0 <= i < |word| =>
      if i in missing then "" else [word[i]]);
    var states := seq(|word|, i requires 0 <= i < |word| =>
      if i in missing then Hidden else Revealed);
    GameWord(word, display, missing, entry.hint, entry.category, input, states, false)
  }

  /** The random inputs of one call of `generateLevelWords`: the shuffled
      order of the pool and one draw of hidden positions per selected word. */
  datatype WordDraw = WordDraw(order: seq<nat>, hides: seq<set<nat>>)

  /** How many words a level deals: `slice(0, wordsPerLevel)` of its pool. */
  function DealSize(levelIndex: nat): nat
    requires levelIndex < |Levels|
  {
    Min(Levels[levelIndex].wordsPerLevel, |Pool(levelIndex)|)
  }

  predicate DrawFits(levelIndex: nat, draw: WordDraw)
    requires levelIndex < |Levels|
  {
    var pool := Pool(levelIndex);
    && IsPermutation(draw.order, |pool|)
    && |draw.hides| >= DealSize(levelIndex)
    && forall i :: 0 <= i < DealSize(levelIndex) ==>
         HidingDraw(pool[draw.order[i]].word, Levels[levelIndex].missingLetters, draw.hides[i])
  }

  /** One dealt word: `entry` with `count` of its letters hidden as drawn. */
  function DealWord(entry: WordEntry, count: nat, drawn: set<nat>): (w: GameWord)
    requires HidingDraw(entry.word, count, drawn)
    ensures Untouched(w)
    ensures w.original == entry.word
    ensures |w.missing| == Min(count, |ValidIndices(entry.word)|)
  {
    MakeWord(entry, GenerateMissingLetters(entry.word, count, drawn))
  }

  /** The first `n` entries of `pool` in the shuffled order
      (`shuffled.slice(0, n)`). */
  function SelectEntries(pool: seq<WordEntry>, n: nat, order: seq<nat>): (sel: seq<WordEntry>)
    requires IsPermutation(order, |pool|) && n <= |pool|
    ensures |sel| == n
    ensures forall i :: 0 <= i < n ==> sel[i] == pool[order[i]] && sel[i] in pool
  {
    seq(n, i requires 0 <= i < n => pool[order[i]])
  }

  /** `n` words dealt from `pool` in the shuffled order, `count` letters
      hidden in each as drawn. */
  function DealFromPool(pool: seq<WordEntry>, n: nat, count: nat, draw: WordDraw): (ws: seq<GameWord>)
    requires IsPermutation(draw.order, |pool|) && n <= |pool| && |draw.hides| >= n
    requires forall i :: 0 <= i < n ==> HidingDraw(pool[draw.order[i]].word, count, draw.hides[i])
    ensures |ws| == n
    ensures forall i :: 0 <= i < n ==> Untouched(ws[i])
    ensures forall i :: 0 <= i < n ==> |ws[i].missing| == Min(count, |ValidIndices(ws[i].original)|)
    ensures forall i :: 0 <= i < n ==> ws[i].original == pool[draw.order[i]].word && pool[draw.order[i]] in pool
  {
    var sel := SelectEntries(pool, n, draw.order);
    DealEach(sel, count, draw.hides)
  }

  /** `generateLevelWords(levelIndex)`: the first `wordsPerLevel` words of
      the shuffled pool, each with its hidden positions chosen. */
  function GenerateLevelWords(levelIndex: nat, draw: WordDraw): (ws: seq<GameWord>)
    requires levelIndex < |Levels| && DrawFits(levelIndex, draw)
    ensures |ws| == Levels[levelIndex].wordsPerLevel
    ensures forall i :: 0 <= i < |ws| ==> Untouched(ws[i])
    ensures forall i :: 0 <= i < |ws| ==>
              |ws[i].missing| == Min(Levels[levelIndex].missingLetters, |ValidIndices(ws[i].original)|)
  {
    PoolsAreLargeEnough(levelIndex);
    DealFromPool(Pool(levelIndex), DealSize(levelIndex), Levels[levelIndex].missingLetters, draw)
  }

  /** The dealt words are distinct entries of the level's pool, that is
      words of the list whose difficulty is at most the level's number. */
  lemma LevelWordsComeFromPool(levelIndex: nat, draw: WordDraw, i: nat, j: nat)
    requires levelIndex < |Levels| && DrawFits(levelIndex, draw)
    requires i < |GenerateLevelWords(levelIndex, draw)| && j < |GenerateLevelWords(levelIndex, draw)|
    ensures var ws, pool := GenerateLevelWords(levelIndex, draw), Pool(levelIndex);
      && ws[i].original == pool[draw.order[i]].word
      && pool[draw.order[i]] in Words && pool[draw.order[i]].difficulty <= levelIndex + 1
      && (i != j ==> draw.order[i] != draw.order[j])
  {
    PoolsAreLargeEnough(levelIndex);
    UpToMembers(Words, levelIndex + 1);
  }

  /** Deals every entry with its own draw of hidden positions. */
  function DealEach(entries: seq<WordEntry>, count: nat, hides: seq<set<nat>>): (ws: seq<GameWord>)
    requires |hides| >= |entries|
    requires forall i :: 0 <= i < |entries| ==> HidingDraw(entries[i].word, count, hides[i])
    ensures |ws| == |entries|
    ensures forall i :: 0 <= i < |ws| ==> Untouched(ws[i]) && ws[i].original == entries[i].word
    ensures forall i :: 0 <= i < |ws| ==> |ws[i].missing| == Min(count, |ValidIndices(ws[i].original)|)
  {
    seq(|entries|, i requires 0 <= i < |entries| => DealWord(entries[i], count, hides[i]))
  }
}
