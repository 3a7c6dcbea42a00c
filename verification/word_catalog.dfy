/** The Word Challenge's static data: its five levels and its word list. */
module WordCatalog {

  /** One row of the level table. `multiplierTenths` is the displayed score
      multiplier times ten (1, 1.5, 2, 2.5, 3); the game shows it and never
      applies it to the score. */
  datatype LevelConfig = LevelConfig(
    level: nat,
    time: nat,
    wordsPerLevel: nat,
    missingLetters: nat,
    hintCost: nat,
    multiplierTenths: nat,
    difficulty: string)

  /** One word of the word list; `difficulty` is the first level (1-based)
      whose pool contains it. */
  datatype WordEntry = WordEntry(word: string, hint: string, category: string, difficulty: nat)

  const Levels: seq<LevelConfig> := [
    LevelConfig(1, 90, 5, 1, 5, 10, "Easy"),
    LevelConfig(2, 75, 6, 1, 10, 15, "Medium"),
    LevelConfig(3, 60, 7, 2, 15, 20, "Hard"),
    LevelConfig(4, 45, 8, 2, 20, 25, "Expert"),
    LevelConfig(5, 30, 10, 3, 25, 30, "Master")
  ]

  /** The word list, grouped as the source groups it: eight words for each
      difficulty. */
  const Words: seq<WordEntry> := FirstWords + LaterWords

  /** The words of difficulty 1 and 2, which every pool starts with. */
  const FirstWords: seq<WordEntry> := EasyWords + MediumWords

  const LaterWords: seq<WordEntry> := HardWords + ExpertWords + MasterWords

  /** Level 1 (Easy) words. */
  const EasyWords: seq<WordEntry> := [
      WordEntry("SNOW", "White flakes from the sky", "Weather", 1),
      WordEntry("GIFT", "Something given during holidays", "Tradition", 1),
      WordEntry("TREE", "Decorated with lights and ornaments", "Decoration", 1),
      WordEntry("STAR", "Shines on top of the tree", "Decoration", 1),
      WordEntry("BELL", "Makes a jingling sound", "Sound", 1),
      WordEntry("ELF", "Santa's helper", "Character", 1),
      WordEntry("JOY", "Feeling of happiness", "Emotion", 1),
      WordEntry("HO HO", "Santa's laugh", "Sound", 1)
  ]

  /** Level 2 (Medium) words. */
  const MediumWords: seq<WordEntry> := [
      WordEntry("SANTA", "Man in red suit with gifts", "Character", 2),
      WordEntry("ANGEL", "Heavenly being with wings", "Character", 2),
      WordEntry("CANDY", "Sweet treat on a cane", "Food", 2),
      WordEntry("HOLLY", "Plant with red berries", "Plant", 2),
      WordEntry("JOLLY", "Merry and cheerful", "Emotion", 2),
      WordEntry("MERRY", "Another word for happy", "Emotion", 2),
      WordEntry("PEACE", "Opposite of war", "Concept", 2),
      WordEntry("WREATH", "Circular decoration on doors", "Decoration", 2)
  ]

  /** Level 3 (Hard) words. */
  const HardWords: seq<WordEntry> := [
      WordEntry("REINDEER", "Animal that pulls Santa's sleigh", "Animal", 3),
      WordEntry("SNOWMAN", "Made of three snowballs", "Character", 3),
      WordEntry("GINGER", "Type of bread man", "Food", 3),
      WordEntry("COOKIE", "Santa's favorite snack", "Food", 3),
      WordEntry("CAROLS", "Christmas songs", "Music", 3),
      WordEntry("FAMILY", "People you celebrate with", "People", 3),
      WordEntry("PRESENT", "Another word for gift", "Tradition", 3),
      WordEntry("SLEIGH", "Santa's vehicle", "Transport", 3)
  ]

  /** Level 4 (Expert) words. */
  const ExpertWords: seq<WordEntry> := [
      WordEntry("CHRISTMAS", "December 25th holiday", "Holiday", 4),
      WordEntry("DECORATION", "Ornaments and lights", "Decoration", 4),
      WordEntry("FESTIVITY", "Celebration and joy", "Event", 4),
      WordEntry("MISTLETOE", "Hang it for kisses", "Plant", 4),
      WordEntry("CHIMNEY", "Santa enters through it", "Building", 4),
      WordEntry("WORKSHOP", "Where elves make toys", "Place", 4),
      WordEntry("CANDLE", "Provides warm light", "Decoration", 4),
      WordEntry("GARLAND", "Decorative chain of leaves", "Decoration", 4)
  ]

  /** Level 5 (Master) words. */
  const MasterWords: seq<WordEntry> := [
      WordEntry("NUTCRACKER", "Ballet and decorative figure", "Tradition", 5),
      WordEntry("STOCKING", "Hung by the fireplace", "Tradition", 5),
      WordEntry("CELEBRATION", "Party and festivities", "Event", 5),
      WordEntry("ADVENT", "Countdown to Christmas", "Tradition", 5),
      WordEntry("YULETIDE", "Old word for Christmas season", "Season", 5),
      WordEntry("FIGGY PUDDING", "Traditional Christmas dessert", "Food", 5),
      WordEntry("NORTH POLE", "Santa's home", "Location", 5),
      WordEntry("KRISS KRINGLE", "Another name for Santa", "Character", 5)
  ]

  /** Each level leaves less time, asks for more words, hides at least as
      many letters and charges more for a hint than the one before. */
  predicate LevelsGetHarder() {
    forall i :: 0 < i < |Levels| ==>
      && Levels[i].time < Levels[i - 1].time
      && Levels[i].wordsPerLevel > Levels[i - 1].wordsPerLevel
      && Levels[i].missingLetters >= Levels[i - 1].missingLetters
      && Levels[i].hintCost > Levels[i - 1].hintCost
  }

  lemma CatalogIsGraded()
    ensures |Levels| == 5
    ensures LevelsGetHarder()
    ensures forall i :: 0 <= i < |Levels| ==> Levels[i].level == i + 1 && Levels[i].time <= Levels[0].time
  {
    forall i | 0 < i < |Levels|
      ensures Levels[i].time < Levels[i - 1].time
      ensures Levels[i].wordsPerLevel > Levels[i - 1].wordsPerLevel
      ensures Levels[i].missingLetters >= Levels[i - 1].missingLetters
      ensures Levels[i].hintCost > Levels[i - 1].hintCost
    {
      assert i == 1 || i == 2 || i == 3 || i == 4;
    }
  }

  /** The entries of `words` whose difficulty is at most `maxDifficulty`,
      in catalog order (`CHRISTMAS_WORDS.filter(...)`). */
  function UpTo(words: seq<WordEntry>, maxDifficulty: nat): (r: seq<WordEntry>)
    ensures |r| <= |words|
  {
    if words == [] then []
    else (if words[0].difficulty <= maxDifficulty then [words[0]] else [])
         + UpTo(words[1..], maxDifficulty)
  }

  /** The pool a level draws from: every word of difficulty at most its
      1-based number. */
  function Pool(levelIndex: nat): seq<WordEntry>
  {
    UpTo(Words, levelIndex + 1)
  }

  /** The filter keeps exactly the entries of at most the given
      difficulty. */
  lemma {:induction false} UpToMembers(words: seq<WordEntry>, maxDifficulty: nat)
    ensures forall e :: e in UpTo(words, maxDifficulty) <==> e in words && e.difficulty <= maxDifficulty
  {
    if words != [] {
      UpToMembers(words[1..], maxDifficulty);
      assert words == [words[0]] + words[1..];
    }
  }

  /** Filtering a concatenation filters each part. */
  lemma {:induction false} UpToConcat(a: seq<WordEntry>, b: seq<WordEntry>, maxDifficulty: nat)
    ensures UpTo(a + b, maxDifficulty) == UpTo(a, maxDifficulty) + UpTo(b, maxDifficulty)
  {
    if a == [] {
      assert a + b == b;
    } else {
      var head := if a[0].difficulty <= maxDifficulty then [a[0]] else [];
      assert (a + b)[0] == a[0];
      assert (a + b)[1..] == a[1..] + b;
      UpToConcat(a[1..], b, maxDifficulty);
      calc {
        UpTo(a + b, maxDifficulty);
        head + UpTo(a[1..] + b, maxDifficulty);
        head + (UpTo(a[1..], maxDifficulty) + UpTo(b, maxDifficulty));
        (head + UpTo(a[1..], maxDifficulty)) + UpTo(b, maxDifficulty);
        UpTo(a, maxDifficulty) + UpTo(b, maxDifficulty);
      }
    }
  }

  /** When every entry qualifies, the filter keeps them all. */
  lemma {:induction false} UpToAll(words: seq<WordEntry>, maxDifficulty: nat)
    requires forall i :: 0 <= i < |words| ==> words[i].difficulty <= maxDifficulty
    ensures UpTo(words, maxDifficulty) == words
  {
    if words != [] {
      UpToAll(words[1..], maxDifficulty);
    }
  }

  /** The first two groups of the word list: eight words each, of
      difficulty 1 and 2. */
  lemma EasyGroup()
    ensures |EasyWords| == 8
    ensures forall i :: 0 <= i < |EasyWords| ==> EasyWords[i].difficulty == 1
  {
  }

  lemma MediumGroup()
    ensures |MediumWords| == 8
    ensures forall i :: 0 <= i < |MediumWords| ==> MediumWords[i].difficulty == 2
  {
  }

  /** Level 1 deals at most eight words and every level at most sixteen. */
  lemma DealsAreSmall(levelIndex: nat)
    requires levelIndex < |Levels|
    ensures Levels[levelIndex].wordsPerLevel <= (if levelIndex == 0 then 8 else 16)
  {
  }

  /** The words every pool but level 1's takes in full: sixteen of them, of
      difficulty at most 2. */
  lemma FirstGroups()
    ensures |FirstWords| == 16
    ensures forall i :: 0 <= i < |FirstWords| ==> FirstWords[i].difficulty <= 2
  {
    EasyGroup();
    MediumGroup();
    assert forall i :: 0 <= i < 8 ==> FirstWords[i] == EasyWords[i];
    assert forall i :: 8 <= i < 16 ==> FirstWords[i] == MediumWords[i - 8];
  }

  /** The size bound on a pool, for any word list laid out as the catalog
      is: a first part of sixteen entries of difficulty at most 2, whose
      first eight have difficulty 1, followed by the rest. */
  lemma {:induction false} PoolSize(first: seq<WordEntry>, later: seq<WordEntry>, easy: seq<WordEntry>,
                                    medium: seq<WordEntry>, maxDifficulty: nat, n: nat)
    requires first == easy + medium && |easy| == 8 && |first| == 16
    requires forall i :: 0 <= i < |easy| ==> easy[i].difficulty <= 1
    requires forall i :: 0 <= i < |first| ==> first[i].difficulty <= 2
    requires maxDifficulty >= 1 && n <= (if maxDifficulty == 1 then 8 else 16)
    ensures |UpTo(first + later, maxDifficulty)| >= n
  {
    UpToConcat(first, later, maxDifficulty);
    if maxDifficulty == 1 {
      UpToConcat(easy, medium, maxDifficulty);
      UpToAll(easy, maxDifficulty);
    } else {
      UpToAll(first, maxDifficulty);
    }
  }

  /** Every level's pool holds at least `wordsPerLevel` words, so every
      level deals exactly that many. */
  lemma PoolsAreLargeEnough(levelIndex: nat)
    requires levelIndex < |Levels|
    ensures |Pool(levelIndex)| >= Levels[levelIndex].wordsPerLevel
  {
    EasyGroup();
    FirstGroups();
    DealsAreSmall(levelIndex);
    PoolSize(FirstWords, LaterWords, EasyWords, MediumWords, levelIndex + 1, Levels[levelIndex].wordsPerLevel);
  }
}
