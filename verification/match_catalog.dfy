/** Memory Match's static data: its five levels and its fifteen card faces. */
module MatchCatalog {

  /** One row of the level table: `grid` cards laid out, `pairs` pairs
      among them, `time` seconds and `moves` pair turns to find them. */
  datatype LevelConfig = LevelConfig(
    level: nat,
    grid: nat,
    time: nat,
    moves: nat,
    pairs: nat,
    theme: string,
    difficulty: string)

  const Levels: seq<LevelConfig> := [
    LevelConfig(1, 4, 60, 20, 2, "simple", "Easy"),
    LevelConfig(2, 6, 75, 25, 3, "medium", "Medium"),
    LevelConfig(3, 12, 90, 30, 6, "challenging", "Hard"),
    LevelConfig(4, 16, 105, 35, 8, "expert", "Expert"),
    LevelConfig(5, 20, 120, 40, 10, "master", "Master")
  ]

  /** A card face. `kind` is the emoji the game compares to decide a match. */
  datatype Face = Face(id: nat, kind: string, name: string, color: string)

  const Faces: seq<Face> := [
    Face(1, "\U{1F385}", "Santa", "bg-red-500"),
    Face(2, "\U{1F384}", "Tree", "bg-green-500"),
    Face(3, "\U{1F381}", "Gift", "bg-blue-500"),
    Face(4, "\U{2B50}", "Star", "bg-yellow-500"),
    Face(5, "\U{1F514}", "Bell", "bg-orange-500"),
    Face(6, "\U{2744}\U{FE0F}", "Snowflake", "bg-blue-300"),
    Face(7, "\U{1F36A}", "Cookie", "bg-amber-600"),
    Face(8, "\U{1F98C}", "Reindeer", "bg-brown-500"),
    Face(9, "\U{1F47C}", "Angel", "bg-white"),
    Face(10, "\U{1F3B6}", "Carol", "bg-purple-500"),
    Face(11, "\U{1F56F}\U{FE0F}", "Candle", "bg-yellow-300"),
    Face(12, "\U{1F9E6}", "Stocking", "bg-red-300"),
    Face(13, "\U{1F36C}", "Candy", "bg-pink-400"),
    Face(14, "\U{1F6F7}", "Sleigh", "bg-indigo-500"),
    Face(15, "\U{1F31F}", "Sparkle", "bg-teal-400")
  ]

  /** No two faces look alike: their emoji already differ in the first
      code point. */
  predicate DistinctKinds(faces: seq<Face>) {
    forall i, j :: 0 <= i < j < |faces| ==> faces[i].kind != faces[j].kind
  }

  lemma FacesAreDistinct()
    ensures |Faces| == 15 && DistinctKinds(Faces)
    ensures forall i :: 0 <= i < |Faces| ==> Faces[i].id == i + 1 && |Faces[i].kind| >= 1
  {
    forall i, j | 0 <= i < j < |Faces|
      ensures Faces[i].kind != Faces[j].kind
    {
      assert Faces[i].kind[0] != Faces[j].kind[0];
    }
  }

  /** Every level lays out exactly its pairs, twice each, and never needs
      more faces than there are. */
  lemma LevelsFit()
    ensures |Levels| == 5
    ensures forall i :: 0 <= i < |Levels| ==>
      && Levels[i].level == i + 1
      && Levels[i].grid == 2 * Levels[i].pairs
      && 1 <= Levels[i].pairs <= |Faces|
  {
  }

  /** The number of columns the board uses for a grid of `gridSize` cards. */
  function GridCols(gridSize: nat): (cols: nat)
    ensures 2 <= cols <= 5
  {
    if gridSize <= 4 then 2
    else if gridSize <= 6 then 3
    else if gridSize <= 12 then 4
    else if gridSize <= 16 then 4
    else 5
  }

  /** Every level's cards fill whole rows, and the board is never taller
      than it is wide. */
  lemma BoardsAreFull(levelIndex: nat)
    requires levelIndex < |Levels|
    ensures var g := Levels[levelIndex].grid;
      g % GridCols(g) == 0 && g / GridCols(g) <= GridCols(g)
  {
    assert levelIndex == 0 || levelIndex == 1 || levelIndex == 2 || levelIndex == 3 || levelIndex == 4;
  }
}
