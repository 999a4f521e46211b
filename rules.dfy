/** The rules engine of game.ts on values. A `State` is a snapshot of a `Game`
    (its stock, table, players, trump suit and winners) and every operation of
    `Game` is a function from snapshot to snapshot. Players are named by their
    seat `order`, which is fixed at construction and distinct for every player,
    so it stands for the object identity the source compares with `===`. */
module Rules {
  import opened Seqs
  import opened Cards

  /** getFullHand tops a hand up to this many cards. */
  const HandSize: nat := 6

  /** The state of one `Player`: its seat, its hand and its four flags. */
  datatype Seat = Seat(order: nat, cards: seq<Card>, attacking: bool, defending: bool,
                       protectionBroken: bool, turn: bool)
  {
    /** The seat with its hand left out: what refilling a hand never changes. */
    function Frame(): (f: Seat) {
      this.(cards := [])
    }
  }

  /** An entry of `winners`: one player, or the attacker and defender who ran
      out of cards on the same trick. */
  datatype Winner = Solo(player: nat) | Pair(attacker: nat, defender: nat)

  /** `stock` is `Game.cards` (drawing pops from its end), `table` is
      `cardsOnTable`, `trump` is `kingCardType`. */
  datatype State = State(stock: seq<Card>, table: seq<Card>, seats: seq<Seat>, trump: Suit,
                         winners: seq<Winner>)

  /** The thrown messages and the "Invalid ..." strings of the source. */
  datatype Error = MinimumPlayers | MaximumPlayers | InvalidMove | InvalidBito

  datatype Result<T> = Ok(value: T) | Err(error: Error)

  datatype Flag = Attacking | Defending | Turn

  predicate Has(seat: Seat, f: Flag) {
    match f
    case Attacking => seat.attacking
    case Defending => seat.defending
    case Turn => seat.turn
  }

  function Min(a: int, b: int): (m: int) {
    if a <= b then a else b
  }

  /** `players.find(p => p.<flag>)`: the first seat carrying the flag, or
      `|seats|` where the source gets `undefined`. */
  function Find(seats: seq<Seat>, f: Flag): (i: nat)
    ensures i <= |seats|
    ensures i < |seats| ==> Has(seats[i], f)
  {
    if seats == [] then 0
    else if Has(seats[0], f) then 0
    else 1 + Find(seats[1..], f)
  }

  /** find returns the first seat with the flag, and `undefined` only when no
      seat has it. */
  lemma {:induction false} FindIsFirst(seats: seq<Seat>, f: Flag)
    ensures forall j :: 0 <= j < Find(seats, f) ==> !Has(seats[j], f)
    ensures Find(seats, f) == |seats| <==> forall j :: 0 <= j < |seats| ==> !Has(seats[j], f)
  {
    if seats != [] && !Has(seats[0], f) {
      FindIsFirst(seats[1..], f);
      assert forall j :: 1 <= j < |seats| ==> seats[j] == seats[1..][j - 1];
    }
  }

  /** A seat with the flag and none before it is what find returns. */
  lemma {:induction false} FindFirst(seats: seq<Seat>, f: Flag, i: nat)
    requires i < |seats| && Has(seats[i], f)
    requires forall j :: 0 <= j < i ==> !Has(seats[j], f)
    ensures Find(seats, f) == i
  {
    if i > 0 {
      FindFirst(seats[1..], f, i - 1);
    }
  }

  /** find only looks at the flag it searches for. */
  lemma {:induction false} FindRespectsFlags(a: seq<Seat>, b: seq<Seat>, f: Flag)
    requires |a| == |b|
    requires forall i :: 0 <= i < |a| ==> Has(a[i], f) == Has(b[i], f)
    ensures Find(a, f) == Find(b, f)
  {
    if a != [] {
      FindRespectsFlags(a[1..], b[1..], f);
    }
  }

  /** The seat after `i` in a ring of `n` seats: `(order + 1) % players.length`. */
  function Next(i: nat, n: nat): (j: nat)
    requires n > 0
    ensures j < n
    ensures i < n ==> j == (if i + 1 < n then i + 1 else 0)
  {
    (i + 1) % n
  }

  /** changePlayersTurn: every seat loses the turn except the player whose
      order is `o`. */
  function GiveTurn(seats: seq<Seat>, o: nat): (r: seq<Seat>)
    ensures |r| == |seats|
  {
    seq(|seats|, i requires 0 <= i < |seats| => seats[i].(turn := seats[i].order == o))
  }

  /** `players.filter(p => p !== player)` for the player whose order is `o`. */
  function RemoveOrder(seats: seq<Seat>, o: nat): (r: seq<Seat>) {
    if seats == [] then []
    else (if seats[0].order == o then [] else [seats[0]]) + RemoveOrder(seats[1..], o)
  }

  function Orders(seats: seq<Seat>): (r: seq<nat>) {
    seq(|seats|, i requires 0 <= i < |seats| => seats[i].order)
  }

  /** The cards in all hands together. */
  function HandCards(seats: seq<Seat>): (r: multiset<Card>) {
    if seats == [] then multiset{} else multiset(seats[0].cards) + HandCards(seats[1..])
  }

  /** Every card the game still holds: stock, hands and table. */
  function AllCards(s: State): (r: multiset<Card>) {
    multiset(s.stock) + HandCards(s.seats) + multiset(s.table)
  }

  // ----- Drawing -----

  /** getNewCard: pop the last stock card into the hand of seat `p`; nothing
      happens when the stock is empty. */
  function Draw(s: State, p: nat): (r: State)
    requires p < |s.seats|
    ensures |r.seats| == |s.seats|
  {
    if s.stock == [] then s
    else
      var card := s.stock[|s.stock| - 1];
      s.(stock := s.stock[..|s.stock| - 1],
         seats := s.seats[p := s.seats[p].(cards := s.seats[p].cards + [card])])
  }

  /** `k` calls of getNewCard for the same seat. */
  function DrawN(s: State, p: nat, k: nat): (r: State)
    requires p < |s.seats|
    ensures |r.seats| == |s.seats|
    decreases k
  {
    if k == 0 then s else Draw(DrawN(s, p, k - 1), p)
  }

  /** How many cards getFullHand asks for: `6 - cards.length`, and no
      iteration at all when that is not positive. */
  function Need(handSize: nat): (k: nat) {
    if handSize < HandSize then HandSize - handSize else 0
  }

  /** getFullHand: draw until the hand holds six cards or the stock is out. */
  function FullHand(s: State, p: nat): (r: State)
    requires p < |s.seats|
    ensures |r.seats| == |s.seats|
  {
    DrawN(s, p, Need(|s.seats[p].cards|))
  }

  /** The last `m` stock cards in the order repeated pops deliver them. */
  function Popped(stock: seq<Card>, m: nat): (r: seq<Card>)
    requires m <= |stock|
  {
    Reversed(stock[|stock| - m..])
  }

  /** The state after `m` successful draws for seat `p`: the last `m` stock
      cards, last card first, appended to the hand. */
  function AfterDraws(s: State, p: nat, m: nat): (r: State)
    requires p < |s.seats| && m <= |s.stock|
  {
    s.(stock := s.stock[..|s.stock| - m],
       seats := s.seats[p := s.seats[p].(cards := s.seats[p].cards + Popped(s.stock, m))])
  }

  lemma AfterNoDraws(s: State, p: nat)
    requires p < |s.seats|
    ensures AfterDraws(s, p, 0) == s
  {
    assert s.stock[..|s.stock|] == s.stock;
    assert s.stock[|s.stock|..] == [];
    assert s.seats[p].cards + Popped(s.stock, 0) == s.seats[p].cards;
    assert s.seats[p := s.seats[p]] == s.seats;
  }

  lemma DrawStep(s: State, p: nat, m: nat)
    requires p < |s.seats| && m <= |s.stock|
    ensures Draw(AfterDraws(s, p, m), p) == AfterDraws(s, p, Min(m + 1, |s.stock|))
  {
    if m < |s.stock| {
      var j := |s.stock| - m;
      var h := s.seats[p].cards;
      var c := s.stock[j - 1];
      assert s.stock[j - 1..][1..] == s.stock[j..];
      assert Popped(s.stock, m + 1) == Popped(s.stock, m) + [c];
      assert s.stock[..j][..j - 1] == s.stock[..j - 1];
      assert h + Popped(s.stock, m) + [c] == h + Popped(s.stock, m + 1);
    }
  }

  /** Drawing `k` times moves the last `min(k, |stock|)` stock cards, last
      card first, to the end of the hand and touches nothing else. */
  lemma {:induction false} DrawNEffect(s: State, p: nat, k: nat)
    requires p < |s.seats|
    ensures DrawN(s, p, k) == AfterDraws(s, p, Min(k, |s.stock|))
    decreases k
  {
    if k == 0 {
      AfterNoDraws(s, p);
    } else {
      DrawNEffect(s, p, k - 1);
      DrawStep(s, p, Min(k - 1, |s.stock|));
    }
  }

  /** getFullHand adds exactly min(max(0, 6 - |hand|), |stock|) cards, taken
      from the end of the stock: stock plus hand size is unchanged and no other
      seat, nor the table, is touched. */
  lemma FullHandEffect(s: State, p: nat)
    requires p < |s.seats|
    ensures FullHand(s, p) == AfterDraws(s, p, Min(Need(|s.seats[p].cards|), |s.stock|))
    ensures |FullHand(s, p).seats[p].cards|
            == |s.seats[p].cards| + Min(Need(|s.seats[p].cards|), |s.stock|)
    ensures |FullHand(s, p).stock| + |FullHand(s, p).seats[p].cards| == |s.stock| + |s.seats[p].cards|
    ensures FullHand(s, p).stock == [] || |FullHand(s, p).seats[p].cards| >= HandSize
  {
    DrawNEffect(s, p, Need(|s.seats[p].cards|));
  }

  /** `players.forEach(p => this.getFullHand(p))` over the first `k` seats. */
  function RefillUpTo(s: State, k: nat): (r: State)
    requires k <= |s.seats|
    ensures |r.seats| == |s.seats|
    decreases k
  {
    if k == 0 then s else FullHand(RefillUpTo(s, k - 1), k - 1)
  }

  /** Every seat, in list order, refilled. */
  function RefillAll(s: State): (r: State)
    ensures |r.seats| == |s.seats|
  {
    RefillUpTo(s, |s.seats|)
  }

  // ----- Card accounting -----

  lemma {:induction false} HandCardsSame(a: seq<Seat>, b: seq<Seat>)
    requires |a| == |b|
    requires forall i :: 0 <= i < |a| ==> a[i].cards == b[i].cards
    ensures HandCards(a) == HandCards(b)
  {
    if a != [] {
      HandCardsSame(a[1..], b[1..]);
    }
  }

  /** Multiset arithmetic used when one hand is replaced. */
  lemma SwapEnds<T>(a: multiset<T>, h: multiset<T>, b: multiset<T>)
    ensures a + h + b == b + h + a
  {
    forall c ensures (a + h + b)[c] == (b + h + a)[c] { }
  }

  lemma AddBoth<T>(h: multiset<T>, a: multiset<T>, u: multiset<T>, b: multiset<T>, v: multiset<T>)
    requires a + u == b + v
    ensures h + a + u == h + b + v
  {
    forall c ensures (h + a + u)[c] == (h + b + v)[c] {
      assert (a + u)[c] == (b + v)[c];
    }
  }

  lemma {:induction false} HandCardsUpdate(seats: seq<Seat>, i: nat, x: Seat)
    requires i < |seats|
    ensures HandCards(seats[i := x]) + multiset(seats[i].cards) == HandCards(seats) + multiset(x.cards)
  {
    var t := seats[i := x];
    assert HandCards(t) == multiset(t[0].cards) + HandCards(t[1..]);
    if i == 0 {
      assert t[1..] == seats[1..];
      SwapEnds(multiset(x.cards), HandCards(seats[1..]), multiset(seats[0].cards));
    } else {
      HandCardsUpdate(seats[1..], i - 1, x);
      assert t[1..] == seats[1..][i - 1 := x];
      AddBoth(multiset(seats[0].cards), HandCards(t[1..]), multiset(seats[i].cards),
              HandCards(seats[1..]), multiset(x.cards));
    }
  }

  /** Dropping players whose hands are empty drops no card. */
  lemma {:induction false} HandCardsRemove(seats: seq<Seat>, o: nat)
    requires forall i :: 0 <= i < |seats| && seats[i].order == o ==> seats[i].cards == []
    ensures HandCards(RemoveOrder(seats, o)) == HandCards(seats)
  {
    if seats != [] {
      forall i | 0 <= i < |seats[1..]| && seats[1..][i].order == o ensures seats[1..][i].cards == [] {
        assert seats[1..][i] == seats[i + 1];
      }
      HandCardsRemove(seats[1..], o);
      var rest := RemoveOrder(seats[1..], o);
      if seats[0].order != o {
        var r := [seats[0]] + rest;
        assert RemoveOrder(seats, o) == r;
        assert r != [] && r[0] == seats[0] && r[1..] == rest;
        assert HandCards(r) == multiset(seats[0].cards) + HandCards(rest);
      } else {
        assert RemoveOrder(seats, o) == rest;
        assert multiset(seats[0].cards) == multiset{};
      }
    }
  }

  lemma OrdersCons(x: Seat, rest: seq<Seat>)
    ensures Orders([x] + rest) == [x.order] + Orders(rest)
  {
  }

  lemma {:induction false} RemoveOrderFacts(seats: seq<Seat>, o: nat)
    ensures |RemoveOrder(seats, o)| <= |seats|
    ensures Orders(RemoveOrder(seats, o)) == Without(Orders(seats), o)
  {
    if seats != [] {
      var rest := RemoveOrder(seats[1..], o);
      RemoveOrderFacts(seats[1..], o);
      OrdersCons(seats[0], seats[1..]);
      assert seats == [seats[0]] + seats[1..];
      var os := Orders(seats);
      assert os[0] == seats[0].order && os[1..] == Orders(seats[1..]);
      if seats[0].order != o {
        OrdersCons(seats[0], rest);
      }
    }
  }

  lemma {:induction false} HandCardsGrow(seats: seq<Seat>, i: nat, extra: seq<Card>)
    requires i < |seats|
    ensures HandCards(seats[i := seats[i].(cards := seats[i].cards + extra)])
            == HandCards(seats) + multiset(extra)
  {
    var x := seats[i].(cards := seats[i].cards + extra);
    if i == 0 {
      assert seats[i := x][1..] == seats[1..];
    } else {
      HandCardsGrow(seats[1..], i - 1, extra);
      assert seats[i := x][1..] == seats[1..][i - 1 := x];
    }
  }

  /** Drawing moves cards from the stock to a hand and loses none. */
  lemma AfterDrawsKeepsCards(s: State, p: nat, m: nat)
    requires p < |s.seats| && m <= |s.stock|
    ensures AllCards(AfterDraws(s, p, m)) == AllCards(s)
  {
    var n := |s.stock|;
    HandCardsGrow(s.seats, p, Popped(s.stock, m));
    ReversedMultiset(s.stock[n - m..]);
    assert s.stock == s.stock[..n - m] + s.stock[n - m..];
    assert multiset(s.stock) == multiset(s.stock[..n - m]) + multiset(Popped(s.stock, m));
  }

  lemma FullHandKeepsCards(s: State, p: nat)
    requires p < |s.seats|
    ensures AllCards(FullHand(s, p)) == AllCards(s)
  {
    FullHandEffect(s, p);
    AfterDrawsKeepsCards(s, p, Min(Need(|s.seats[p].cards|), |s.stock|));
  }

  /** What refilling the first `k` seats of `s` may have done to reach `r`:
      seats keep their order and flags, the table, trump and winners stay, the
      stock only loses cards from its end, hands only grow at their end, no
      card is lost or made, and each refilled seat holds six cards unless the stock ran out. */
  ghost predicate Refilled(s: State, r: State, k: nat) {
    && |r.seats| == |s.seats| && k <= |s.seats|
    && r.table == s.table && r.trump == s.trump && r.winners == s.winners
    && |r.stock| <= |s.stock| && r.stock == s.stock[..|r.stock|]
    && (forall i :: 0 <= i < |s.seats| ==> r.seats[i].Frame() == s.seats[i].Frame())
    && (forall i :: 0 <= i < |s.seats| ==> s.seats[i].cards <= r.seats[i].cards)
    && AllCards(r) == AllCards(s)
    && (forall i :: 0 <= i < k ==> r.stock == [] || |r.seats[i].cards| >= HandSize)
  }

  lemma RefillStep(s: State, q: State, k: nat)
    requires Refilled(s, q, k) && k < |s.seats|
    ensures Refilled(s, FullHand(q, k), k + 1)
  {
    FullHandEffect(q, k);
    FullHandKeepsCards(q, k);
    var r := FullHand(q, k);
    assert r.stock == q.stock[..|r.stock|];
    assert r.stock == s.stock[..|r.stock|];
    forall i | 0 <= i < |s.seats| && i != k ensures r.seats[i] == q.seats[i] { }
  }

  lemma {:induction false} RefillUpToFacts(s: State, k: nat)
    requires k <= |s.seats|
    ensures Refilled(s, RefillUpTo(s, k), k)
    decreases k
  {
    if k == 0 {
      assert s.stock[..|s.stock|] == s.stock;
    } else {
      RefillUpToFacts(s, k - 1);
      RefillStep(s, RefillUpTo(s, k - 1), k - 1);
    }
  }

  /** Refilling every seat: see `Refilled`. */
  lemma RefillAllFacts(s: State)
    ensures Refilled(s, RefillAll(s), |s.seats|)
  {
    RefillUpToFacts(s, |s.seats|);
  }

  // ----- Move legality -----

  /** The ordinary Durak beating rule: a higher card of the same suit, or any
      trump over a non-trump. */
  predicate Beats(card: Card, top: Card, trump: Suit) {
    (card.suit == top.suit && card.level > top.level) || (card.suit == trump && top.suit != trump)
  }

  /** Some table card has the same level. */
  predicate LevelOnTable(table: seq<Card>, card: Card) {
    exists c :: c in table && c.level == card.level
  }

  /** isPossibleMove reads the top table card only in its defender branch,
      and crashes there on an empty table. */
  predicate CanPlayDefined(seat: Seat, table: seq<Card>, card: Card) {
    seat.turn && card in seat.cards && !seat.attacking && seat.defending ==> table != []
  }

  /** isPossibleMove for the player in `seat`. */
  predicate CanPlay(seat: Seat, table: seq<Card>, trump: Suit, card: Card)
    requires CanPlayDefined(seat, table, card)
  {
    if !seat.turn then false
    else if card !in seat.cards then false
    else if seat.attacking then table == [] || LevelOnTable(table, card)
    else if seat.defending then Beats(card, table[|table| - 1], trump)
    else false
  }

  /** Beating is a strict order on cards: no card beats itself, no two cards
      beat each other, beating chains compose; a trump beats every non-trump
      and a non-trump never beats a trump. */
  lemma BeatsIsStrictOrder(a: Card, b: Card, c: Card, trump: Suit)
    ensures !Beats(a, a, trump)
    ensures Beats(a, b, trump) ==> !Beats(b, a, trump)
    ensures Beats(a, b, trump) && Beats(b, c, trump) ==> Beats(a, c, trump)
    ensures a.suit == trump && b.suit != trump ==> Beats(a, b, trump)
    ensures a.suit != trump && b.suit == trump ==> !Beats(a, b, trump)
  {
  }

  /** What isPossibleMove allows: nothing without the turn or for a card not
      in hand; for an attacker exactly an empty table or a level already on
      it; for a defender exactly a card beating the top card; for anyone
      else nothing. */
  lemma CanPlayCases(seat: Seat, table: seq<Card>, trump: Suit, card: Card)
    requires CanPlayDefined(seat, table, card)
    ensures !seat.turn || card !in seat.cards ==> !CanPlay(seat, table, trump, card)
    ensures seat.turn && card in seat.cards && seat.attacking ==>
              (CanPlay(seat, table, trump, card) <==>
               table == [] || exists k :: 0 <= k < |table| && table[k].level == card.level)
    ensures seat.turn && card in seat.cards && !seat.attacking && seat.defending ==>
              (CanPlay(seat, table, trump, card) <==> Beats(card, table[|table| - 1], trump))
    ensures !seat.attacking && !seat.defending ==> !CanPlay(seat, table, trump, card)
  {
    if seat.turn && card in seat.cards && seat.attacking && table != [] {
      if LevelOnTable(table, card) {
        var c :| c in table && c.level == card.level;
        var k :| 0 <= k < |table| && table[k] == c;
      }
    }
  }

  // ----- move -----

  /** move crashes where isPossibleMove does, and when it hands the turn to a
      player `find` cannot find. */
  predicate MoveDefined(s: State, p: nat, card: Card) {
    p < |s.seats| && CanPlayDefined(s.seats[p], s.table, card)
    && (CanPlay(s.seats[p], s.table, s.trump, card) ==>
          if s.seats[p].defending then Find(s.seats, Attacking) < |s.seats|
          else Find(s.seats, Defending) < |s.seats|)
  }

  /** move(card, player): on a legal move the card leaves the hand for the end
      of the table; the defender hands the turn back to the attacker, the
      attacker hands it to a defender whose protection is not broken. */
  function Move(s: State, p: nat, card: Card): (r: Result<State>)
    requires MoveDefined(s, p, card)
  {
    if !CanPlay(s.seats[p], s.table, s.trump, card) then Err(InvalidMove)
    else
      var seats := s.seats[p := s.seats[p].(cards := Without(s.seats[p].cards, card))];
      var table := s.table + [card];
      FindRespectsFlags(s.seats, seats, Attacking);
      FindRespectsFlags(s.seats, seats, Defending);
      if s.seats[p].defending then
        Ok(s.(seats := GiveTurn(seats, seats[Find(seats, Attacking)].order), table := table))
      else
        var d := Find(seats, Defending);
        if !seats[d].protectionBroken then
          Ok(s.(seats := GiveTurn(seats, seats[d].order), table := table))
        else
          Ok(s.(seats := seats, table := table))
  }

  // ----- missAttack -----

  /** missAttack(player): a defending caller marks its protection broken; in
      every case the turn goes to the attacker. */
  function MissAttack(s: State, p: nat): (r: State)
    requires p < |s.seats| && Find(s.seats, Attacking) < |s.seats|
  {
    var seats := if s.seats[p].defending then s.seats[p := s.seats[p].(protectionBroken := true)]
                 else s.seats;
    FindRespectsFlags(s.seats, seats, Attacking);
    s.(seats := GiveTurn(seats, seats[Find(seats, Attacking)].order))
  }

  /** Handing the turn to the same player twice is handing it once. */
  lemma GiveTurnTwice(seats: seq<Seat>, o: nat)
    ensures GiveTurn(GiveTurn(seats, o), o) == GiveTurn(seats, o)
  {
    var once := GiveTurn(seats, o);
    forall i | 0 <= i < |seats| ensures GiveTurn(once, o)[i] == once[i] {
      assert once[i] == seats[i].(turn := seats[i].order == o);
    }
  }

  /** Conceding twice is conceding once. */
  lemma MissAttackIdempotent(s: State, p: nat)
    requires p < |s.seats| && Find(s.seats, Attacking) < |s.seats|
    ensures var once := MissAttack(s, p);
            Find(once.seats, Attacking) < |once.seats| && MissAttack(once, p) == once
  {
    var once := MissAttack(s, p);
    var seats := if s.seats[p].defending then s.seats[p := s.seats[p].(protectionBroken := true)]
                 else s.seats;
    FindRespectsFlags(s.seats, seats, Attacking);
    var a := Find(seats, Attacking);
    var o := seats[a].order;
    assert once.seats == GiveTurn(seats, o);
    FindRespectsFlags(seats, once.seats, Attacking);
    assert once.seats[a].order == o;
    var seats2 := if once.seats[p].defending then once.seats[p := once.seats[p].(protectionBroken := true)]
                  else once.seats;
    assert seats2 == once.seats by {
      if once.seats[p].defending {
        assert once.seats[p] == seats[p].(turn := seats[p].order == o);
      }
    }
    GiveTurnTwice(seats, o);
  }

  // ----- bito -----

  /** bito crashes only when a valid call finds no defender. */
  predicate BitoDefined(s: State, p: nat) {
    p < |s.seats| && (s.table != [] && s.seats[p].attacking ==> Find(s.seats, Defending) < |s.seats|)
  }

  /** Lines 154-157 of bito: the defender `d` attacks instead of defending,
      the caller `p` stops attacking and seat `nd` defends, in that order (the
      writes may hit the same player when there are two). */
  function Rotate(seats: seq<Seat>, p: nat, d: nat, nd: nat): (r: seq<Seat>)
    requires p < |seats| && d < |seats| && nd < |seats|
    ensures |r| == |seats|
  {
    var t1 := seats[d := seats[d].(attacking := true, defending := false)];
    var t2 := t1[p := t1[p].(attacking := false)];
    t2[nd := t2[nd].(defending := true)]
  }

  /** Lines 159-167 of bito, a broken defence: the defender `d` takes the
      table into its hand and goes idle with its protection mended, seat `nd`
      attacks instead, and the seat after `nd` defends. */
  function TakeTable(seats: seq<Seat>, table: seq<Card>, d: nat, nd: nat): (r: seq<Seat>)
    requires d < |seats| && nd < |seats|
    ensures |r| == |seats|
  {
    var t4 := seats[d := seats[d].(cards := seats[d].cards + table)];
    var t5 := t4[nd := t4[nd].(attacking := true, defending := false)];
    var t6 := t5[d := t5[d].(defending := false, attacking := false, protectionBroken := false)];
    var nn := Next(t6[nd].order, |seats|);
    t6[nn := t6[nn].(defending := true)]
  }

  /** Lines 159-172 of bito, a broken defence, on the rotated seats: the
      defender `d` takes the table, seat `nd` attacks, and with the stock out
      an attacker `p` out of cards wins and leaves the player list; the turn
      goes to `nd`. The table is cleared afterwards, by `Bito`. */
  function Taken(s: State, p: nat, d: nat, nd: nat): (r: State)
    requires p < |s.seats| && d < |s.seats| && nd < |s.seats|
  {
    var me := s.seats[p].order;
    var t7 := TakeTable(s.seats, s.table, d, nd);
    var won := |s.stock| < 1 && |t7[p].cards| < 1;
    var rest := if won then RemoveOrder(t7, me) else t7;
    var winners := if won then s.winners + [Solo(me)] else s.winners;
    s.(seats := GiveTurn(rest, t7[nd].order), winners := winners)
  }

  /** Lines 174-182 of bito, a held defence, on the rotated seats: the turn
      goes to the defender `d`; with the stock out an attacker `p` out of
      cards wins, together with `d` when that one is out of cards too, and
      the winners leave the player list. */
  function Held(s: State, p: nat, d: nat): (r: State)
    requires p < |s.seats| && d < |s.seats|
  {
    var me := s.seats[p].order;
    var t4 := GiveTurn(s.seats, s.seats[d].order);
    var done := |s.stock| < 1 && |t4[p].cards| < 1;
    if done && |t4[d].cards| < 1 then
      s.(seats := RemoveOrder(RemoveOrder(t4, me), t4[d].order), winners := s.winners + [Pair(me, t4[d].order)])
    else if done then
      s.(seats := RemoveOrder(t4, me), winners := s.winners + [Solo(me)])
    else
      s.(seats := t4)
  }

  /** bito(player). `d` is the defender, `nd` the seat after it; all seat
      arithmetic indexes the current player list. A winner is recorded only
      when the stock is empty and the winner's hand is too; winners leave the
      player list, the table is cleared, and then every remaining player is
      refilled in list order. */
  function Bito(s: State, p: nat): (r: Result<State>)
    requires BitoDefined(s, p)
  {
    if !(|s.table| > 0 && s.seats[p].attacking) then Err(InvalidBito)
    else
      var d := Find(s.seats, Defending);
      var nd := Next(s.seats[d].order, |s.seats|);
      var rotated := s.(seats := Rotate(s.seats, p, d, nd));
      if rotated.seats[d].protectionBroken then
        Ok(RefillAll(Taken(rotated, p, d, nd).(table := [])))
      else
        Ok(RefillAll(Held(rotated, p, d).(table := [])))
  }

  // ----- construction -----

  /** The running minimum of the constructor's scan: `smallestLevel` and the
      seat of `firstAttacker`. */
  datatype Pick = Pick(level: int, holder: nat)

  predicate HoldsTrump(cards: seq<Card>, trump: Suit, level: int) {
    exists c :: c in cards && c.suit == trump && c.level == level
  }

  /** The inner forEach over one hand of seat `who`. */
  function ScanCards(acc: Pick, cards: seq<Card>, who: nat, trump: Suit): (r: Pick)
    ensures r == acc || r.holder == who
    decreases |cards|
  {
    if cards == [] then acc
    else
      var a := ScanCards(acc, cards[..|cards| - 1], who, trump);
      var c := cards[|cards| - 1];
      if c.suit == trump && a.level > c.level then Pick(c.level, who) else a
  }

  /** The outer forEach over the seats. */
  function ScanSeats(acc: Pick, seats: seq<Seat>, trump: Suit): (r: Pick)
    ensures r == acc || r.holder < |seats|
    decreases |seats|
  {
    if seats == [] then acc
    else ScanCards(ScanSeats(acc, seats[..|seats| - 1], trump), seats[|seats| - 1].cards, |seats| - 1, trump)
  }

  lemma {:induction false} ScanCardsFacts(acc: Pick, cards: seq<Card>, who: nat, trump: Suit)
    ensures var r := ScanCards(acc, cards, who, trump);
            && r.level <= acc.level
            && (forall c :: c in cards && c.suit == trump ==> r.level <= c.level)
            && (r.level == acc.level ==> r == acc)
            && (r.level < acc.level ==> r.holder == who && HoldsTrump(cards, trump, r.level))
    decreases |cards|
  {
    if cards != [] {
      var init := cards[..|cards| - 1];
      ScanCardsFacts(acc, init, who, trump);
      assert cards == init + [cards[|cards| - 1]];
      var a := ScanCards(acc, init, who, trump);
      if a.level < acc.level {
        var c :| c in init && c.suit == trump && c.level == a.level;
        assert c in cards;
      }
    }
  }

  lemma {:induction false} ScanSeatsFacts(acc: Pick, seats: seq<Seat>, trump: Suit)
    ensures var r := ScanSeats(acc, seats, trump);
            && r.level <= acc.level
            && (forall i, c :: 0 <= i < |seats| && c in seats[i].cards && c.suit == trump ==> r.level <= c.level)
            && (r.level == acc.level ==> r == acc)
            && (r.level < acc.level ==> r.holder < |seats| && HoldsTrump(seats[r.holder].cards, trump, r.level))
    decreases |seats|
  {
    if seats != [] {
      var init := seats[..|seats| - 1];
      var last := |seats| - 1;
      ScanSeatsFacts(acc, init, trump);
      var a := ScanSeats(acc, init, trump);
      ScanCardsFacts(a, seats[last].cards, last, trump);
      forall i | 0 <= i < last ensures seats[i] == init[i] { }
    }
  }

  /** The first attacker the constructor picks: the holder of the lowest
      trump, starting from `smallestLevel = 10` and the random `fallback` seat. */
  function FirstAttacker(seats: seq<Seat>, trump: Suit, fallback: nat): (a: nat)
    requires fallback < |seats|
    ensures a < |seats|
  {
    ScanSeats(Pick(10, fallback), seats, trump).holder
  }

  /** If any hand holds a trump, the first attacker holds a trump no higher
      than any trump in any hand; if none does, it is the random fallback. */
  lemma FirstAttackerHoldsLowestTrump(seats: seq<Seat>, trump: Suit, fallback: nat)
    requires fallback < |seats|
    ensures var a := FirstAttacker(seats, trump, fallback);
            && ((exists i, c :: 0 <= i < |seats| && c in seats[i].cards && c.suit == trump) ==>
                  exists l :: HoldsTrump(seats[a].cards, trump, l)
                    && forall i, c :: 0 <= i < |seats| && c in seats[i].cards && c.suit == trump ==> l <= c.level)
            && ((forall i, c :: 0 <= i < |seats| && c in seats[i].cards ==> c.suit != trump) ==> a == fallback)
  {
    var r := ScanSeats(Pick(10, fallback), seats, trump);
    ScanSeatsFacts(Pick(10, fallback), seats, trump);
    if exists i, c :: 0 <= i < |seats| && c in seats[i].cards && c.suit == trump {
      var i, c :| 0 <= i < |seats| && c in seats[i].cards && c.suit == trump;
      assert r.level < 10;
      var l := r.level;
      assert FirstAttacker(seats, trump, fallback) == r.holder;
      assert HoldsTrump(seats[r.holder].cards, trump, l)
        && forall i, c :: 0 <= i < |seats| && c in seats[i].cards && c.suit == trump ==> l <= c.level;
    }
  }

  /** The players as `playerNames.map(...)` creates them: seat `i` has order
      `i`, no cards and no flag set. */
  function EmptySeats(n: nat): (r: seq<Seat>)
    ensures |r| == n
  {
    seq(n, i requires 0 <= i < n => Seat(i, [], false, false, false, false))
  }

  /** The constructor after its player-count checks: deal to every player in
      seat order, then mark the first attacker (attacking, with the turn) and
      the seat after it (defending). The trump is the suit of the first stock
      card, which is the last one to be drawn. */
  function Start(stock: seq<Card>, n: nat, fallback: nat): (r: State)
    requires 2 <= n <= 4 && fallback < n && stock != []
  {
    var dealt := RefillAll(State(stock, [], EmptySeats(n), stock[0].suit, []));
    dealt.(seats := OpenAttack(dealt.seats, FirstAttacker(dealt.seats, dealt.trump, fallback)))
  }

  /** The constructor's last lines: seat `a` attacks and holds the turn, the
      seat after it defends. */
  function OpenAttack(seats: seq<Seat>, a: nat): (r: seq<Seat>)
    requires a < |seats|
    ensures |r| == |seats|
  {
    var t1 := seats[a := seats[a].(attacking := true, turn := true)];
    var d := Next(t1[a].order, |seats|);
    t1[d := t1[d].(defending := true)]
  }

  /** `new Game(playerNames)`: fewer than two or more than four names throw
      before any player exists. */
  function NewGame(names: seq<string>, stock: seq<Card>, fallback: nat): (r: Result<State>)
    requires 2 <= |names| <= 4 ==> fallback < |names|
    requires stock != []
    ensures r.Err? <==> |names| < 2 || |names| > 4
    ensures r.Err? ==> r.error == (if |names| < 2 then MinimumPlayers else MaximumPlayers)
    ensures r.Ok? ==> |r.value.seats| == |names|
  {
    if |names| < 2 then Err(MinimumPlayers)
    else if |names| > 4 then Err(MaximumPlayers)
    else
      RefillAllFacts(State(stock, [], EmptySeats(|names|), stock[0].suit, []));
      Ok(Start(stock, |names|, fallback))
  }
}
