/** Memory Match's cards: dealing a level's deck (`generateCards`) and the
    whole-deck changes the game makes. */
module MatchDeck {
  import opened MatchCatalog
  import opened Perms

  datatype Card = Card(id: nat, kind: string, name: string, color: string, flipped: bool, matched: bool)

  /** Copy 1 or 2 of a face, face down and unmatched, with id `100 * face
      id + copy`. The random animation class is cosmetic and left out. */
  function CopyOf(f: Face, copy: nat): (c: Card)
    ensures c.kind == f.kind && !c.flipped && !c.matched
  {
    Card(f.id * 100 + copy, f.kind, f.name, f.color, false, false)
  }

  /** Two copies of each of the first `n` faces, in face order. */
  function PairsOf(faces: seq<Face>, n: nat): (deck: seq<Card>)
    requires n <= |faces|
    ensures |deck| == 2 * n
    ensures forall m :: 0 <= m < 2 * n ==> deck[m] == CopyOf(faces[m / 2], m % 2 + 1)
  {
    seq(2 * n, m requires 0 <= m < 2 * n => CopyOf(faces[m / 2], m % 2 + 1))
  }

  /** Exactly two cards of `deck` show `kind`. */
  predicate ExactlyTwo(deck: seq<Card>, kind: string) {
    exists i, j :: 0 <= i < j < |deck| && deck[i].kind == kind && deck[j].kind == kind &&
      forall m :: 0 <= m < |deck| && deck[m].kind == kind ==> m == i || m == j
  }

  /** The pairs of the first `n` faces in the shuffled order `perm`. */
  function Deal(faces: seq<Face>, n: nat, perm: seq<nat>): (deck: seq<Card>)
    requires DistinctKinds(faces) && n <= |faces| && IsPermutation(perm, 2 * n)
    ensures |deck| == 2 * n
    ensures forall m :: 0 <= m < |deck| ==> !deck[m].flipped && !deck[m].matched
    ensures forall m :: 0 <= m < |deck| ==>
      perm[m] / 2 < n && deck[m] == CopyOf(faces[perm[m] / 2], perm[m] % 2 + 1)
    ensures forall k :: 0 <= k < n ==> ExactlyTwo(deck, faces[k].kind)
  {
    var deck := Permute(PairsOf(faces, n), perm);
    forall k | 0 <= k < n
      ensures ExactlyTwo(deck, faces[k].kind)
    {
      TwoCopies(faces, n, perm, deck, k);
    }
    deck
  }

  lemma TwoCopies(faces: seq<Face>, n: nat, perm: seq<nat>, deck: seq<Card>, k: nat)
    requires DistinctKinds(faces) && n <= |faces| && IsPermutation(perm, 2 * n)
    requires deck == Permute(PairsOf(faces, n), perm)
    requires k < n
    ensures ExactlyTwo(deck, faces[k].kind)
  {
    var a := PreimageOf(perm, 2 * n, 2 * k);
    var b := PreimageOf(perm, 2 * n, 2 * k + 1);
    var kind := faces[k].kind;
    assert deck[a].kind == kind && deck[b].kind == kind;
    forall m | 0 <= m < |deck| && deck[m].kind == kind
      ensures m == a || m == b
    {
      assert faces[perm[m] / 2].kind == kind;
      assert perm[m] / 2 == k;
    }
    if a < b {
      assert 0 <= a < b < |deck|;
    } else {
      assert 0 <= b < a < |deck|;
    }
  }

  /** `generateCards(levelIndex)`: the level's pairs, shuffled into the order
      `perm`, all face down and unmatched. Every card is a copy of one of
      the level's faces and each of those faces appears on exactly two
      cards. */
  function GenerateCards(levelIndex: nat, perm: seq<nat>): (deck: seq<Card>)
    requires levelIndex < |Levels| && IsPermutation(perm, Levels[levelIndex].grid)
    ensures |deck| == Levels[levelIndex].grid == 2 * Levels[levelIndex].pairs
    ensures forall m :: 0 <= m < |deck| ==> !deck[m].flipped && !deck[m].matched
    ensures forall m :: 0 <= m < |deck| ==>
      perm[m] / 2 < Levels[levelIndex].pairs && deck[m] == CopyOf(Faces[perm[m] / 2], perm[m] % 2 + 1)
    ensures forall k :: 0 <= k < Levels[levelIndex].pairs ==> ExactlyTwo(deck, Faces[k].kind)
  {
    FacesAreDistinct();
    LevelsFit();
    Deal(Faces, Levels[levelIndex].pairs, perm)
  }

  // ---------------------------------------------------------------------
  // Counting matched cards

  function CountMatched(cards: seq<Card>): (n: nat)
    ensures n <= |cards|
  {
    if cards == [] then 0 else (if cards[0].matched then 1 else 0) + CountMatched(cards[1..])
  }

  /** Replacing one card changes the count by what that card's own flag
      changes. */
  lemma {:induction false} CountAfterUpdate(cards: seq<Card>, i: nat, c: Card)
    requires i < |cards|
    ensures CountMatched(cards[i := c]) + (if cards[i].matched then 1 else 0)
         == CountMatched(cards) + (if c.matched then 1 else 0)
  {
    if i > 0 {
      assert cards[i := c][1..] == cards[1..][i - 1 := c];
      CountAfterUpdate(cards[1..], i - 1, c);
    }
  }

  /** Two decks with the same matched flags have the same count. */
  lemma {:induction false} CountSameFlags(a: seq<Card>, b: seq<Card>)
    requires |a| == |b|
    requires forall i :: 0 <= i < |a| ==> a[i].matched == b[i].matched
    ensures CountMatched(a) == CountMatched(b)
  {
    if a != [] {
      CountSameFlags(a[1..], b[1..]);
    }
  }

  /** The count reaches the size of the deck exactly when every card is
      matched. */
  lemma {:induction false} AllMatchedIffCount(cards: seq<Card>)
    ensures CountMatched(cards) == |cards| <==> forall i :: 0 <= i < |cards| ==> cards[i].matched
  {
    if cards != [] {
      AllMatchedIffCount(cards[1..]);
      if forall i :: 0 <= i < |cards| ==> cards[i].matched {
        assert forall i :: 0 <= i < |cards[1..]| ==> cards[1..][i].matched by {
          forall i | 0 <= i < |cards[1..]|
            ensures cards[1..][i].matched
          {
            assert cards[1..][i] == cards[i + 1];
          }
        }
      }
      if CountMatched(cards) == |cards| {
        forall i | 0 <= i < |cards|
          ensures cards[i].matched
        {
          if i > 0 {
            assert cards[i] == cards[1..][i - 1];
          }
        }
      }
    }
  }

  // ---------------------------------------------------------------------
  // Whole-deck changes

  /** The peek: every card face up. */
  function ShowAll(cards: seq<Card>): (r: seq<Card>)
    ensures |r| == |cards| && CountMatched(r) == CountMatched(cards)
    ensures forall i :: 0 <= i < |r| ==> r[i] == cards[i].(flipped := true)
  {
    var r := seq(|cards|, i requires 0 <= i < |cards| => cards[i].(flipped := true));
    CountSameFlags(r, cards);
    r
  }

  /** The end of a peek: every unmatched card face down, matched cards as
      they were. */
  function HideUnmatched(cards: seq<Card>): (r: seq<Card>)
    ensures |r| == |cards| && CountMatched(r) == CountMatched(cards)
    ensures forall i :: 0 <= i < |r| ==> r[i] == (if cards[i].matched then cards[i] else cards[i].(flipped := false))
  {
    var r := seq(|cards|, i requires 0 <= i < |cards| =>
      if cards[i].matched then cards[i] else cards[i].(flipped := false));
    CountSameFlags(r, cards);
    r
  }
}
