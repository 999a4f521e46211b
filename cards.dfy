/** The 36-card pack and the backward Fisher-Yates shuffle of game.ts. */
module Cards {
  import opened Seqs

  /** The four suits, in the order the pack loop visits them. */
  datatype Suit = Heart | Diamond | Spade | Club

  /** Rank level: 1 for the "6" up to 9 for the ace; it is the only thing compared. */
  type Level = l: int | 1 <= l <= 9 witness 1

  /** A card is its suit and level; the display symbol is left out. */
  datatype Card = Card(suit: Suit, level: Level)

  const PackSize: nat := 36

  function SuitAt(k: nat): (s: Suit)
    requires k < 4
  {
    [Heart, Diamond, Spade, Club][k]
  }

  function SuitIndex(s: Suit): (k: nat)
    ensures k < 4 && SuitAt(k) == s
  {
    match s
    case Heart => 0
    case Diamond => 1
    case Spade => 2
    case Club => 3
  }

  /** The pack as the build loop leaves it: suit-major, the nine symbols of a
      suit in ascending order, the level being the symbol's index plus one. */
  function Pack(): (r: seq<Card>) {
    seq(PackSize, i requires 0 <= i < PackSize => Card(SuitAt(i / 9), i % 9 + 1))
  }

  /** Every (suit, level) pair sits at position 9 * suit + level - 1 and nowhere
      else: the pack holds each of the 36 cards exactly once. */
  lemma PackExactlyOnce()
    ensures |Pack()| == 36
    ensures forall c: Card :: Pack()[9 * SuitIndex(c.suit) + c.level - 1] == c
    ensures NoDuplicates(Pack())
    ensures forall c: Card :: multiset(Pack())[c] == 1
  {
    var p := Pack();
    forall c: Card ensures p[9 * SuitIndex(c.suit) + c.level - 1] == c {
      var k := 9 * SuitIndex(c.suit) + c.level - 1;
      assert k / 9 == SuitIndex(c.suit) && k % 9 == c.level - 1;
    }
    forall i, j | 0 <= i < j < |p| ensures p[i] != p[j] {
      if i / 9 == j / 9 {
        assert i % 9 != j % 9;
      } else {
        assert SuitIndex(SuitAt(i / 9)) == i / 9;
        assert SuitIndex(SuitAt(j / 9)) == j / 9;
      }
    }
    NoDuplicatesDistinct(p);
    forall c: Card ensures multiset(p)[c] == 1 {
      assert p[9 * SuitIndex(c.suit) + c.level - 1] == c;
      assert c in p;
    }
  }

  /** The random draws of a shuffle of `n` cards: `pick[i]` is the `j` chosen
      at step `i`, and `Math.floor(Math.random() * (i + 1))` always lies in 0..i. */
  predicate Picks(pick: seq<nat>, n: nat) {
    |pick| == n && forall i :: 0 <= i < n ==> pick[i] <= i
  }

  /** The loop steps i, i - 1, ..., 1 applied to `xs`. */
  function ShuffleFrom(xs: seq<Card>, pick: seq<nat>, i: nat): (r: seq<Card>)
    requires i < |xs| && Picks(pick, |xs|)
    ensures |r| == |xs|
    decreases i
  {
    if i == 0 then xs else ShuffleFrom(Swap(xs, i, pick[i]), pick, i - 1)
  }

  /** What shuffleArray returns for the draws `pick`. */
  function Shuffled(xs: seq<Card>, pick: seq<nat>): (r: seq<Card>)
    requires Picks(pick, |xs|)
    ensures |r| == |xs|
  {
    if xs == [] then [] else ShuffleFrom(xs, pick, |xs| - 1)
  }

  lemma {:induction false} ShuffleFromPermutes(xs: seq<Card>, pick: seq<nat>, i: nat)
    requires i < |xs| && Picks(pick, |xs|)
    ensures |ShuffleFrom(xs, pick, i)| == |xs|
    ensures multiset(ShuffleFrom(xs, pick, i)) == multiset(xs)
    decreases i
  {
    if i > 0 {
      SwapPermutes(xs, i, pick[i]);
      ShuffleFromPermutes(Swap(xs, i, pick[i]), pick, i - 1);
    }
  }

  /** Whatever the draws, the shuffle returns a permutation of its input. */
  lemma ShuffledPermutes(xs: seq<Card>, pick: seq<nat>)
    requires Picks(pick, |xs|)
    ensures |Shuffled(xs, pick)| == |xs|
    ensures multiset(Shuffled(xs, pick)) == multiset(xs)
  {
    if xs != [] {
      ShuffleFromPermutes(xs, pick, |xs| - 1);
    }
  }

  /** shuffleArray: copy the input into a fresh array and swap backwards in place.
      The input is a value, so it cannot be changed. */
  method Shuffle(cards: seq<Card>, pick: seq<nat>) returns (r: seq<Card>)
    requires Picks(pick, |cards|)
    ensures r == Shuffled(cards, pick)
    ensures multiset(r) == multiset(cards)
  {
    var a := new Card[|cards|](k requires 0 <= k < |cards| => cards[k]);
    assert a[..] == cards;
    var i := a.Length - 1;
    while i > 0
      invariant -1 <= i < a.Length
      invariant i < 0 ==> a[..] == cards == []
      invariant i >= 0 ==> ShuffleFrom(a[..], pick, i) == Shuffled(cards, pick)
    {
      var j := pick[i];
      ghost var before := a[..];
      a[i], a[j] := a[j], a[i];
      assert a[..] == Swap(before, i, j);
      i := i - 1;
    }
    r := a[..];
    ShuffledPermutes(cards, pick);
  }
}
