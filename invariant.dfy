/** The invariant a game keeps from construction until the first winner
    leaves the table, and the facts each operation of game.ts guarantees. */
module Invariant {
  import opened Seqs
  import opened Cards
  import opened Rules

  /** Seat `a` attacks, the seat after it defends, nobody else does either. */
  predicate RolesAt(seats: seq<Seat>, a: nat) {
    2 <= |seats| && a < |seats|
    && forall i :: 0 <= i < |seats| ==>
         seats[i].attacking == (i == a) && seats[i].defending == (i == Next(a, |seats|))
  }

  /** Seat `t` alone holds the turn. */
  predicate TurnAt(seats: seq<Seat>, t: nat) {
    t < |seats| && forall i :: 0 <= i < |seats| ==> seats[i].turn == (i == t)
  }

  /** getAttackingPlayer, getDefendingPlayer and the turn holder, as seats. */
  function Attacker(s: State): (a: nat) {
    Find(s.seats, Attacking)
  }

  function Defender(s: State): (d: nat) {
    Find(s.seats, Defending)
  }

  function TurnHolder(s: State): (t: nat) {
    Find(s.seats, Turn)
  }

  /** The game invariant: two to four players seated by order; one attacker
      and the seat after it as the one defender; one turn holder, which is
      the attacker or, while cards lie on the table, the defender; only the
      defender's protection can be broken; the trump is the suit of the
      stock's first card while there is one. That no card is there twice is
      kept apart: `StartDistinct` gives it for a new game, and the card
      lemmas below carry it on while this invariant holds (bito may discard
      the table). */
  predicate Inv(s: State) {
    && 2 <= |s.seats| <= 4
    && (forall i :: 0 <= i < |s.seats| ==> s.seats[i].order == i)
    && RolesAt(s.seats, Attacker(s))
    && TurnAt(s.seats, TurnHolder(s))
    && (TurnHolder(s) == Attacker(s) || (TurnHolder(s) == Defender(s) && s.table != []))
    && (forall i :: 0 <= i < |s.seats| && s.seats[i].protectionBroken ==> i == Defender(s))
    && (s.stock != [] ==> s.stock[0].suit == s.trump)
  }

  /** The invariant from its parts, with `a` as the attacker and `t` as the
      turn holder. */
  lemma InvFrom(s: State, a: nat, t: nat)
    requires 2 <= |s.seats| <= 4
    requires forall i :: 0 <= i < |s.seats| ==> s.seats[i].order == i
    requires RolesAt(s.seats, a) && TurnAt(s.seats, t)
    requires t == a || (t == Next(a, |s.seats|) && s.table != [])
    requires forall i :: 0 <= i < |s.seats| && s.seats[i].protectionBroken ==> i == Next(a, |s.seats|)
    requires s.stock != [] ==> s.stock[0].suit == s.trump
    ensures Inv(s)
    ensures Attacker(s) == a && Defender(s) == Next(a, |s.seats|) && TurnHolder(s) == t
  {
    RolesFind(s.seats, a);
    TurnFind(s.seats, t);
  }

  lemma RolesFind(seats: seq<Seat>, a: nat)
    requires RolesAt(seats, a)
    ensures Find(seats, Attacking) == a
    ensures Find(seats, Defending) == Next(a, |seats|) != a
  {
    FindFirst(seats, Attacking, a);
    FindFirst(seats, Defending, Next(a, |seats|));
  }

  lemma TurnFind(seats: seq<Seat>, t: nat)
    requires TurnAt(seats, t)
    ensures Find(seats, Turn) == t
  {
    FindFirst(seats, Turn, t);
  }

  /** With orders equal to positions, changePlayersTurn leaves exactly the
      named player holding the turn and changes no other flag or hand. */
  lemma GiveTurnOnly(seats: seq<Seat>, t: nat)
    requires t < |seats|
    requires forall i :: 0 <= i < |seats| ==> seats[i].order == i
    ensures TurnAt(GiveTurn(seats, t), t)
    ensures forall i :: 0 <= i < |seats| ==> GiveTurn(seats, t)[i] == seats[i].(turn := i == t)
  {
  }

  lemma GiveTurnKeepsCards(seats: seq<Seat>, o: nat)
    ensures HandCards(GiveTurn(seats, o)) == HandCards(seats)
  {
    HandCardsSame(GiveTurn(seats, o), seats);
  }

  lemma {:induction false} HandCardsHolds(seats: seq<Seat>, i: nat)
    requires i < |seats|
    ensures multiset(seats[i].cards) <= HandCards(seats)
  {
    if i > 0 {
      HandCardsHolds(seats[1..], i - 1);
    }
  }

  // ----- construction -----

  /** Dealing: the stock loses cards from its end only, every seat keeps its
      order and has no flag set, and all cards are still there. */
  lemma DealFacts(stock: seq<Card>, n: nat)
    requires stock != []
    ensures var dealt := RefillAll(State(stock, [], EmptySeats(n), stock[0].suit, []));
            && |dealt.seats| == n && dealt.table == [] && dealt.winners == [] && dealt.trump == stock[0].suit
            && (dealt.stock != [] ==> dealt.stock[0] == stock[0])
            && AllCards(dealt) == multiset(stock)
            && forall i :: 0 <= i < n ==> dealt.seats[i].Frame() == Seat(i, [], false, false, false, false)
  {
    var s0 := State(stock, [], EmptySeats(n), stock[0].suit, []);
    RefillAllFacts(s0);
    HandCardsSame(EmptySeats(n), seq(n, i => Seat(0, [], false, false, false, false)));
    EmptyHands(n);
    var dealt := RefillAll(s0);
    forall i | 0 <= i < n ensures dealt.seats[i].Frame() == Seat(i, [], false, false, false, false) {
      assert dealt.seats[i].Frame() == EmptySeats(n)[i].Frame();
    }
  }

  /** Construction from any non-empty deck: the invariant holds, every
      card of the deck is in the stock or a hand, the first attacker holds
      the turn, the seat after it defends, and the table and winners are
      empty. */
  lemma StartInv(stock: seq<Card>, n: nat, fallback: nat)
    requires 2 <= n <= 4 && fallback < n && stock != []
    ensures var s := Start(stock, n, fallback);
            var dealt := RefillAll(State(stock, [], EmptySeats(n), stock[0].suit, []));
            && Inv(s)
            && AllCards(s) == multiset(stock)
            && s.trump == stock[0].suit && s.table == [] && s.winners == []
            && Attacker(s) == FirstAttacker(dealt.seats, s.trump, fallback)
            && TurnHolder(s) == Attacker(s)
            && Defender(s) == Next(Attacker(s), n)
            && (forall i :: 0 <= i < n ==> s.seats[i].cards == dealt.seats[i].cards)
  {
    var dealt := RefillAll(State(stock, [], EmptySeats(n), stock[0].suit, []));
    DealFacts(stock, n);
    var a := FirstAttacker(dealt.seats, dealt.trump, fallback);
    var seats1 := dealt.seats[a := dealt.seats[a].(attacking := true, turn := true)];
    var d := Next(a, n);
    var seats2 := seats1[d := seats1[d].(defending := true)];
    var s := Start(stock, n, fallback);
    assert s == dealt.(seats := seats2) by {
      assert dealt.seats[a].Frame() == Seat(a, [], false, false, false, false);
    }
    forall i | 0 <= i < n
      ensures seats2[i].order == i && seats2[i].attacking == (i == a) && seats2[i].defending == (i == d)
      ensures !seats2[i].protectionBroken && seats2[i].turn == (i == a) && seats2[i].cards == dealt.seats[i].cards
    {
      assert dealt.seats[i].Frame() == Seat(i, [], false, false, false, false);
    }
    assert RolesAt(seats2, a);
    RolesFind(seats2, a);
    assert TurnAt(seats2, a);
    TurnFind(seats2, a);
    HandCardsSame(seats2, dealt.seats);
    assert AllCards(s) == AllCards(dealt);
  }

  /** A new game dealt from the shuffled pack holds every card of the pack
      exactly once. */
  lemma StartDistinct(pick: seq<nat>, n: nat, fallback: nat)
    requires Picks(pick, PackSize) && 2 <= n <= 4 && fallback < n
    ensures Shuffled(Pack(), pick) != []
    ensures var s := Start(Shuffled(Pack(), pick), n, fallback);
            AllCards(s) == multiset(Pack()) && Distinct(AllCards(s))
  {
    PackExactlyOnce();
    ShuffledPermutes(Pack(), pick);
    StartInv(Shuffled(Pack(), pick), n, fallback);
  }

  lemma {:induction false} EmptyHands(n: nat)
    ensures HandCards(seq(n, i => Seat(0, [], false, false, false, false))) == multiset{}
  {
    if n > 0 {
      var e := seq(n, i => Seat(0, [], false, false, false, false));
      assert e[1..] == seq(n - 1, i => Seat(0, [], false, false, false, false));
      EmptyHands(n - 1);
    }
  }

  // ----- move -----

  /** A sub-collection of a collection without repeats has no repeats. */
  lemma DistinctPart<T(!new)>(a: multiset<T>, b: multiset<T>)
    requires Distinct(a + b)
    ensures Distinct(a) && Distinct(b)
  {
    forall x ensures a[x] <= 1 && b[x] <= 1 {
      assert (a + b)[x] == a[x] + b[x];
    }
  }

  /** Under the invariant nobody holding the turn defends an empty table and
      the attacker and defender exist, so move never crashes; it answers
      "Invalid move" exactly when isPossibleMove says no. */
  lemma MoveUnderInv(s: State, p: nat, card: Card)
    requires Inv(s) && p < |s.seats|
    ensures MoveDefined(s, p, card)
    ensures Move(s, p, card).Err? <==> !CanPlay(s.seats[p], s.table, s.trump, card)
    ensures Move(s, p, card).Err? ==> Move(s, p, card).error == InvalidMove
  {
    RolesFind(s.seats, Attacker(s));
    TurnFind(s.seats, TurnHolder(s));
  }

  /** Multiset arithmetic behind taking one card out of a hand. */
  lemma TakeOnce<T>(hn: multiset<T>, hs: multiset<T>, mh: multiset<T>, x: T)
    requires mh[x] == 1 && hn + mh == hs + mh[x := 0]
    ensures hn + multiset{x} == hs
  {
    forall c ensures (hn + multiset{x})[c] == hs[c] {
      assert (hn + mh)[c] == (hs + mh[x := 0])[c];
    }
  }

  /** Removing a card held in a hand, when no card is there twice, takes
      exactly that one card out of the hands. */
  lemma PlayOutOfHand(s: State, p: nat, card: Card)
    requires p < |s.seats| && card in s.seats[p].cards && Distinct(AllCards(s))
    ensures var seats := s.seats[p := s.seats[p].(cards := Without(s.seats[p].cards, card))];
            HandCards(seats) + multiset{card} == HandCards(s.seats)
  {
    var hand := s.seats[p].cards;
    var x := s.seats[p].(cards := Without(hand, card));
    var mh := multiset(hand);
    HandCardsHolds(s.seats, p);
    assert mh[card] == 1 by {
      assert AllCards(s)[card] <= 1;
      assert mh[card] <= HandCards(s.seats)[card] <= AllCards(s)[card];
    }
    WithoutMultiset(hand, card);
    HandCardsUpdate(s.seats, p, x);
    TakeOnce(HandCards(s.seats[p := x]), HandCards(s.seats), mh, card);
  }

  /** Who holds the turn after a legal move of seat `p`. */
  function TurnAfterMove(s: State, p: nat): (t: nat) {
    if p == Defender(s) then Attacker(s)
    else if p < |s.seats| && Defender(s) < |s.seats| && !s.seats[Defender(s)].protectionBroken then Defender(s)
    else p
  }

  /** The state a legal move leaves: apart from the hands, only the table
      and the turn flags change. */
  lemma MoveShape(s: State, p: nat, card: Card)
    requires Inv(s) && MoveDefined(s, p, card) && CanPlay(s.seats[p], s.table, s.trump, card)
    ensures Move(s, p, card).Ok?
    ensures var r := Move(s, p, card).value;
            && r.stock == s.stock && r.table == s.table + [card] && r.winners == s.winners
            && r.trump == s.trump && |r.seats| == |s.seats|
            && forall i :: 0 <= i < |s.seats| ==>
                 r.seats[i].(cards := []) == s.seats[i].(cards := [], turn := i == TurnAfterMove(s, p))
  {
    var a, d, t := Attacker(s), Defender(s), TurnHolder(s);
    RolesFind(s.seats, a);
    TurnFind(s.seats, t);
    var seats := s.seats[p := s.seats[p].(cards := Without(s.seats[p].cards, card))];
    FindRespectsFlags(s.seats, seats, Attacking);
    FindRespectsFlags(s.seats, seats, Defending);
    var r := Move(s, p, card).value;
    var o := TurnAfterMove(s, p);
    if p == d {
      assert r.seats == GiveTurn(seats, a);
    } else if !s.seats[d].protectionBroken {
      assert r.seats == GiveTurn(seats, d);
    } else {
      assert p == t == o;
      assert r.seats == seats;
    }
    GiveTurnOnly(seats, o);
  }

  /** Playing a held card to the table keeps every card. */
  lemma PlayKeepsCards(s: State, p: nat, card: Card, r: State)
    requires p < |s.seats| && card in s.seats[p].cards && Distinct(AllCards(s))
    requires r.stock == s.stock && r.table == s.table + [card] && |r.seats| == |s.seats|
    requires r.seats[p].cards == Without(s.seats[p].cards, card)
    requires forall i :: 0 <= i < |s.seats| && i != p ==> r.seats[i].cards == s.seats[i].cards
    ensures AllCards(r) == AllCards(s)
  {
    PlayOutOfHand(s, p, card);
    var seats := s.seats[p := s.seats[p].(cards := Without(s.seats[p].cards, card))];
    HandCardsSame(r.seats, seats);
  }

  /** A legal move keeps the invariant: the roles stay, and the turn goes to
      the attacker after a defence, to the defender after an attack on an
      unbroken defence, and otherwise stays with the attacker. */
  lemma MoveKeepsInv(s: State, p: nat, card: Card)
    requires Inv(s) && MoveDefined(s, p, card) && CanPlay(s.seats[p], s.table, s.trump, card)
    ensures Move(s, p, card).Ok?
    ensures var r := Move(s, p, card).value;
            && Inv(r)
            && Attacker(r) == Attacker(s) && Defender(r) == Defender(s)
            && TurnHolder(r) == (if p == Defender(s) then Attacker(s)
                                 else if !s.seats[Defender(s)].protectionBroken then Defender(s)
                                 else p)
  {
    var a := Attacker(s);
    var r := Move(s, p, card).value;
    var o := TurnAfterMove(s, p);
    RolesFind(s.seats, a);
    MoveShape(s, p, card);
    forall i | 0 <= i < |s.seats|
      ensures r.seats[i].order == i && r.seats[i].attacking == s.seats[i].attacking
      ensures r.seats[i].defending == s.seats[i].defending && r.seats[i].turn == (i == o)
      ensures r.seats[i].protectionBroken == s.seats[i].protectionBroken
    {
      assert r.seats[i].(cards := []) == s.seats[i].(cards := [], turn := i == o);
    }
    assert TurnAt(r.seats, o);
    assert RolesAt(r.seats, a);
    InvFrom(r, a, o);
  }

  /** What a legal move does to the hands, the stock and the table. */
  lemma MoveHands(s: State, p: nat, card: Card)
    requires MoveDefined(s, p, card) && CanPlay(s.seats[p], s.table, s.trump, card)
    ensures Move(s, p, card).Ok?
    ensures var r := Move(s, p, card).value;
            && r.table == s.table + [card] && r.stock == s.stock && r.winners == s.winners
            && |r.seats| == |s.seats|
            && r.seats[p].cards == Without(s.seats[p].cards, card)
            && (forall i :: 0 <= i < |s.seats| && i != p ==> r.seats[i].cards == s.seats[i].cards)
  {
    var seats := s.seats[p := s.seats[p].(cards := Without(s.seats[p].cards, card))];
    FindRespectsFlags(s.seats, seats, Attacking);
    FindRespectsFlags(s.seats, seats, Defending);
    var r := Move(s, p, card).value;
    assert r.seats == seats || exists o :: r.seats == GiveTurn(seats, o);
    forall i | 0 <= i < |s.seats| ensures r.seats[i].cards == seats[i].cards { }
  }

  /** A legal move only moves the card from the mover's hand to the end of
      the table: no other hand, nor the stock or the winners, changes, and no
      card is lost or made. */
  lemma MoveKeepsCards(s: State, p: nat, card: Card)
    requires MoveDefined(s, p, card) && CanPlay(s.seats[p], s.table, s.trump, card)
    requires Distinct(AllCards(s))
    ensures Move(s, p, card).Ok?
    ensures AllCards(Move(s, p, card).value) == AllCards(s)
  {
    MoveHands(s, p, card);
    PlayKeepsCards(s, p, card, Move(s, p, card).value);
  }

  // ----- missAttack -----

  /** The state missAttack leaves: a defending caller's protection is broken
      and the attacker holds the turn; nothing else changes. */
  lemma MissAttackShape(s: State, p: nat)
    requires Inv(s) && p < |s.seats|
    ensures Find(s.seats, Attacking) < |s.seats|
    ensures var r := MissAttack(s, p);
            && r.table == s.table && r.stock == s.stock && r.winners == s.winners && r.trump == s.trump
            && |r.seats| == |s.seats|
            && forall i :: 0 <= i < |s.seats| ==>
                 r.seats[i] == s.seats[i].(protectionBroken := s.seats[i].protectionBroken || (i == p && s.seats[p].defending),
                                           turn := i == Attacker(s))
  {
    var a := Attacker(s);
    RolesFind(s.seats, a);
    var seats := if s.seats[p].defending then s.seats[p := s.seats[p].(protectionBroken := true)] else s.seats;
    FindRespectsFlags(s.seats, seats, Attacking);
    var r := MissAttack(s, p);
    assert r.seats == GiveTurn(seats, a);
    GiveTurnOnly(seats, a);
  }

  /** Under the invariant missAttack never crashes and keeps the invariant:
      the table, stock and hands stay, the roles stay, only a defending
      caller's protection becomes broken, and the attacker holds the turn. */
  lemma MissAttackKeepsInv(s: State, p: nat)
    requires Inv(s) && p < |s.seats|
    ensures Find(s.seats, Attacking) < |s.seats|
    ensures var r := MissAttack(s, p);
            && Inv(r)
            && r.table == s.table && r.stock == s.stock && r.winners == s.winners
            && |r.seats| == |s.seats|
            && (forall i :: 0 <= i < |s.seats| ==> r.seats[i].cards == s.seats[i].cards)
            && (forall i :: 0 <= i < |s.seats| ==>
                  r.seats[i].protectionBroken == (s.seats[i].protectionBroken || (i == p && p == Defender(s))))
            && Attacker(r) == Attacker(s) && Defender(r) == Defender(s)
            && TurnHolder(r) == Attacker(s)
  {
    var a, d := Attacker(s), Defender(s);
    RolesFind(s.seats, a);
    MissAttackShape(s, p);
    var r := MissAttack(s, p);
    forall i | 0 <= i < |s.seats|
      ensures r.seats[i].order == i && r.seats[i].cards == s.seats[i].cards
      ensures r.seats[i].attacking == (i == a) && r.seats[i].defending == (i == d) && r.seats[i].turn == (i == a)
      ensures r.seats[i].protectionBroken == (s.seats[i].protectionBroken || (i == p && p == d))
    {
      assert s.seats[i].defending == (i == d) && s.seats[i].attacking == (i == a);
      assert r.seats[i] == s.seats[i].(protectionBroken := s.seats[i].protectionBroken || (i == p && s.seats[p].defending),
                                       turn := i == a);
    }
    assert TurnAt(r.seats, a);
    assert RolesAt(r.seats, a);
    InvFrom(r, a, a);
  }

  // ----- refilling after bito -----

  /** Refilling every hand keeps the invariant, the roles, the turn and every
      card, and leaves each hand with six cards or the stock empty. */
  lemma RefillKeepsInv(q: State)
    requires Inv(q)
    ensures var r := RefillAll(q);
            && Refilled(q, r, |q.seats|)
            && Inv(r)
            && Attacker(r) == Attacker(q) && Defender(r) == Defender(q) && TurnHolder(r) == TurnHolder(q)
  {
    var r := RefillAll(q);
    var a, t := Attacker(q), TurnHolder(q);
    RefillAllFacts(q);
    RolesFind(q.seats, a);
    TurnFind(q.seats, t);
    forall i | 0 <= i < |q.seats|
      ensures r.seats[i].order == q.seats[i].order && r.seats[i].attacking == q.seats[i].attacking
      ensures r.seats[i].defending == q.seats[i].defending && r.seats[i].turn == q.seats[i].turn
      ensures r.seats[i].protectionBroken == q.seats[i].protectionBroken
    {
      assert r.seats[i].Frame() == q.seats[i].Frame();
    }
    assert RolesAt(r.seats, a);
    assert TurnAt(r.seats, t);
    InvFrom(r, a, t);
  }

  /** Refilling keeps the order of the seats. */
  lemma RefilledOrders(q: State, r: State, k: nat)
    requires Refilled(q, r, k)
    ensures Orders(r.seats) == Orders(q.seats)
  {
    forall i | 0 <= i < |q.seats| ensures r.seats[i].order == q.seats[i].order {
      assert r.seats[i].Frame() == q.seats[i].Frame();
    }
  }

  // ----- bito -----

  /** Under the invariant bito never crashes; it answers "Invalid bito"
      exactly when the table is empty or the caller is not the attacker. */
  lemma BitoUnderInv(s: State, p: nat)
    requires Inv(s) && p < |s.seats|
    ensures BitoDefined(s, p)
    ensures Bito(s, p).Err? <==> s.table == [] || p != Attacker(s)
    ensures Bito(s, p).Err? ==> Bito(s, p).error == InvalidBito
  {
    RolesFind(s.seats, Attacker(s));
  }

  /** Lines 154-157 under the invariant: the defender, the seat after the
      attacker, becomes the attacker and the seat after it the defender;
      hands, turn and protection stay. */
  lemma RotateRoles(s: State, p: nat)
    requires Inv(s) && p == Attacker(s)
    ensures p < |s.seats| && Defender(s) == Next(p, |s.seats|)
    ensures var d := Next(p, |s.seats|);
            var t3 := Rotate(s.seats, p, d, Next(d, |s.seats|));
            && RolesAt(t3, d)
            && forall i :: 0 <= i < |s.seats| ==>
                 t3[i].order == i && t3[i].cards == s.seats[i].cards && t3[i].turn == s.seats[i].turn
                 && t3[i].protectionBroken == s.seats[i].protectionBroken
  {
    RolesFind(s.seats, p);
    var n := |s.seats|;
    var d := Next(p, n);
    var nd := Next(d, n);
    var t3 := Rotate(s.seats, p, d, nd);
    forall i | 0 <= i < n
      ensures t3[i].(attacking := false, defending := false) == s.seats[i].(attacking := false, defending := false)
      ensures t3[i].attacking == (i == d) && t3[i].defending == (i == nd)
    {
      assert s.seats[i].attacking == (i == p) && s.seats[i].defending == (i == d);
    }
  }

  /** Lines 159-167: the broken defender `d` takes the table and goes idle
      with its protection mended, the seat after it attacks and the one after
      that defends. */
  lemma TakeTableRoles(t3: seq<Seat>, table: seq<Card>, d: nat)
    requires RolesAt(t3, d)
    requires forall i :: 0 <= i < |t3| ==> t3[i].order == i
    ensures var nd := Next(d, |t3|);
            var t7 := TakeTable(t3, table, d, nd);
            && RolesAt(t7, nd)
            && HandCards(t7) == HandCards(t3) + multiset(table)
            && t7[d].cards == t3[d].cards + table
            && forall i :: 0 <= i < |t3| ==>
                 t7[i].order == i && t7[i].turn == t3[i].turn
                 && t7[i].protectionBroken == (t3[i].protectionBroken && i != d)
                 && (i != d ==> t7[i].cards == t3[i].cards)
  {
    var n := |t3|;
    var nd := Next(d, n);
    var nn := Next(nd, n);
    var t4 := t3[d := t3[d].(cards := t3[d].cards + table)];
    var t5 := t4[nd := t4[nd].(attacking := true, defending := false)];
    var t6 := t5[d := t5[d].(defending := false, attacking := false, protectionBroken := false)];
    var t7 := t6[nn := t6[nn].(defending := true)];
    assert t6[nd].order == nd;
    assert TakeTable(t3, table, d, nd) == t7;
    forall i | 0 <= i < n
      ensures t7[i].order == i && t7[i].turn == t3[i].turn
      ensures t7[i].protectionBroken == (t3[i].protectionBroken && i != d)
      ensures t7[i].cards == t4[i].cards
      ensures t7[i].attacking == (i == nd) && t7[i].defending == (i == nn)
    {
    }
    HandCardsGrow(t3, d, table);
    HandCardsSame(t7, t4);
  }

  /** Every seat left by the filter was a seat before. */
  lemma {:induction false} RemoveOrderKeeps(seats: seq<Seat>, o: nat)
    ensures forall x :: x in RemoveOrder(seats, o) ==> x in seats
  {
    if seats != [] {
      RemoveOrderKeeps(seats[1..], o);
    }
  }

  /** With orders equal to positions, removing an empty-handed player keeps
      every card, and so does removing a second one afterwards. */
  lemma DropWinners(seats: seq<Seat>, o1: nat, o2: nat)
    requires forall i :: 0 <= i < |seats| ==> seats[i].order == i
    requires o1 < |seats| && seats[o1].cards == []
    ensures HandCards(RemoveOrder(seats, o1)) == HandCards(seats)
    ensures o2 < |seats| && seats[o2].cards == [] ==>
              HandCards(RemoveOrder(RemoveOrder(seats, o1), o2)) == HandCards(seats)
  {
    HandCardsRemove(seats, o1);
    if o2 < |seats| && seats[o2].cards == [] {
      var r1 := RemoveOrder(seats, o1);
      RemoveOrderKeeps(seats, o1);
      forall i | 0 <= i < |r1| && r1[i].order == o2 ensures r1[i].cards == [] {
        assert r1[i] in seats;
        var k :| 0 <= k < |seats| && seats[k] == r1[i];
      }
      HandCardsRemove(r1, o2);
    }
  }

  // ----- bito: successful defence -----

  /** The players after a successful defence, before anybody wins: bito
      rotates the roles and hands the turn to the old defender, the seat
      after the attacker `p`. */
  function HeldSeats(s: State, p: nat): (r: seq<Seat>)
    requires p < |s.seats|
  {
    var d := Next(p, |s.seats|);
    GiveTurn(Rotate(s.seats, p, d, Next(d, |s.seats|)), d)
  }

  /** The state a successful defence leaves before the refill, from the
      rotated seats `t4`: the table is empty, and an attacker out of cards
      with the stock out leaves the game, together with the defender `d` when
      that one is out of cards too. */
  function HeldState(s: State, p: nat, t4: seq<Seat>): (r: State)
    requires p < |s.seats|
  {
    var d := Next(p, |s.seats|);
    var done := s.stock == [] && s.seats[p].cards == [];
    if done && s.seats[d].cards == [] then
      State(s.stock, [], RemoveOrder(RemoveOrder(t4, p), d), s.trump, s.winners + [Pair(p, d)])
    else if done then
      State(s.stock, [], RemoveOrder(t4, p), s.trump, s.winners + [Solo(p)])
    else
      State(s.stock, [], t4, s.trump, s.winners)
  }

  lemma HeldValue(s: State, p: nat)
    requires Inv(s) && p == Attacker(s) && s.table != [] && !s.seats[Next(p, |s.seats|)].protectionBroken
    ensures BitoDefined(s, p) && Bito(s, p).Ok?
    ensures Bito(s, p).value == RefillAll(HeldState(s, p, HeldSeats(s, p)))
  {
    RotateRoles(s, p);
    var d := Next(p, |s.seats|);
    var t3 := Rotate(s.seats, p, d, Next(d, |s.seats|));
    assert GiveTurn(t3, t3[d].order) == HeldSeats(s, p);
  }

  /** The rotated seats: the old defender attacks and holds the turn, the
      seat after it defends, nobody's protection is broken and no hand has
      changed. */
  lemma HeldSeatsFacts(s: State, p: nat)
    requires Inv(s) && p == Attacker(s) && !s.seats[Next(p, |s.seats|)].protectionBroken
    ensures var d := Next(p, |s.seats|);
            var t4 := HeldSeats(s, p);
            && |t4| == |s.seats| && RolesAt(t4, d) && TurnAt(t4, d)
            && forall i :: 0 <= i < |s.seats| ==>
                 t4[i].order == i && t4[i].cards == s.seats[i].cards && !t4[i].protectionBroken
  {
    var d := Next(p, |s.seats|);
    RotateRoles(s, p);
    var t3 := Rotate(s.seats, p, d, Next(d, |s.seats|));
    GiveTurnOnly(t3, d);
    forall i | 0 <= i < |s.seats| ensures !s.seats[i].protectionBroken {
      assert s.seats[i].protectionBroken ==> i == d;
    }
  }

  /** bito after a successful defence, when nobody wins: the invariant holds
      with the old defender attacking and holding the turn and the seat after
      it defending; the table is empty; every hand only grows, to six cards
      while the stock lasts; nobody's protection is broken. */
  lemma BitoHeldInv(s: State, p: nat)
    requires Inv(s) && p == Attacker(s) && s.table != [] && !s.seats[Next(p, |s.seats|)].protectionBroken
    requires !(s.stock == [] && s.seats[p].cards == [])
    ensures BitoDefined(s, p) && Bito(s, p).Ok?
    ensures var r := Bito(s, p).value;
            var d := Next(p, |s.seats|);
            && Inv(r) && Attacker(r) == d && Defender(r) == Next(d, |s.seats|) && TurnHolder(r) == d
            && r.table == [] && r.winners == s.winners && |r.seats| == |s.seats|
            && (forall i :: 0 <= i < |s.seats| ==> s.seats[i].cards <= r.seats[i].cards)
            && (forall i :: 0 <= i < |s.seats| ==> r.stock == [] || |r.seats[i].cards| >= HandSize)
            && (forall i :: 0 <= i < |r.seats| ==> !r.seats[i].protectionBroken)
  {
    var d := Next(p, |s.seats|);
    HeldValue(s, p);
    HeldSeatsFacts(s, p);
    var q := HeldState(s, p, HeldSeats(s, p));
    InvFrom(q, d, d);
    RefillKeepsInv(q);
    var r := RefillAll(q);
    forall i | 0 <= i < |r.seats| ensures !r.seats[i].protectionBroken {
      assert r.seats[i].Frame() == q.seats[i].Frame();
    }
  }

  /** A held defence discards the table, so a game without repeated cards
      stays without them. */
  lemma BitoHeldDistinct(s: State, p: nat)
    requires Inv(s) && p == Attacker(s) && s.table != [] && !s.seats[Next(p, |s.seats|)].protectionBroken
    requires Distinct(AllCards(s))
    ensures BitoDefined(s, p) && Bito(s, p).Ok?
    ensures Distinct(AllCards(Bito(s, p).value))
  {
    BitoHeldCards(s, p);
    DistinctPart(AllCards(Bito(s, p).value), multiset(s.table));
  }

  /** Who leaves the player list on a successful defence, before the refill. */
  lemma HeldStateOrders(s: State, p: nat, t4: seq<Seat>)
    requires p < |s.seats| && |t4| == |s.seats|
    requires forall i :: 0 <= i < |s.seats| ==> t4[i].order == i && s.seats[i].order == i
    ensures var q := HeldState(s, p, t4);
            var d := Next(p, |s.seats|);
            var done := s.stock == [] && s.seats[p].cards == [];
            && q.table == [] && q.trump == s.trump
            && (done && s.seats[d].cards == [] ==>
                  q.winners == s.winners + [Pair(p, d)]
                  && Orders(q.seats) == Without(Without(Orders(s.seats), p), d))
            && (done && s.seats[d].cards != [] ==>
                  q.winners == s.winners + [Solo(p)] && Orders(q.seats) == Without(Orders(s.seats), p))
            && (!done ==> q.winners == s.winners && Orders(q.seats) == Orders(s.seats))
  {
    var d := Next(p, |s.seats|);
    assert Orders(t4) == Orders(s.seats);
    RemoveOrderFacts(t4, p);
    RemoveOrderFacts(RemoveOrder(t4, p), d);
  }

  /** Who wins on a successful defence: with the stock out, an attacker out
      of cards wins, together with the defender when that one is out of cards
      too, and the winners leave the player list; otherwise nobody wins. */
  lemma BitoHeldWinners(s: State, p: nat)
    requires Inv(s) && p == Attacker(s) && s.table != [] && !s.seats[Next(p, |s.seats|)].protectionBroken
    ensures BitoDefined(s, p) && Bito(s, p).Ok?
    ensures var r := Bito(s, p).value;
            var d := Next(p, |s.seats|);
            var done := s.stock == [] && s.seats[p].cards == [];
            && r.table == [] && r.trump == s.trump
            && (done && s.seats[d].cards == [] ==>
                  r.winners == s.winners + [Pair(p, d)]
                  && Orders(r.seats) == Without(Without(Orders(s.seats), p), d))
            && (done && s.seats[d].cards != [] ==>
                  r.winners == s.winners + [Solo(p)] && Orders(r.seats) == Without(Orders(s.seats), p))
            && (!done ==> r.winners == s.winners && Orders(r.seats) == Orders(s.seats))
  {
    HeldValue(s, p);
    HeldSeatsFacts(s, p);
    HeldStateOrders(s, p, HeldSeats(s, p));
    var q := HeldState(s, p, HeldSeats(s, p));
    RefillAllFacts(q);
    RefilledOrders(q, RefillAll(q), |q.seats|);
  }

  /** Card accounting of a successful defence, from rotated seats that keep
      their orders and hands. */
  lemma HeldStateCards(s: State, p: nat, t4: seq<Seat>)
    requires p < |s.seats| && |t4| == |s.seats|
    requires forall i :: 0 <= i < |s.seats| ==> t4[i].order == i && t4[i].cards == s.seats[i].cards
    ensures AllCards(RefillAll(HeldState(s, p, t4))) + multiset(s.table) == AllCards(s)
  {
    var d := Next(p, |s.seats|);
    var q := HeldState(s, p, t4);
    RefillAllFacts(q);
    HandCardsSame(t4, s.seats);
    if s.stock == [] && s.seats[p].cards == [] {
      DropWinners(t4, p, d);
    }
    assert HandCards(q.seats) == HandCards(s.seats);
  }

  /** A successful defence discards the table and loses no other card, even
      when winners leave. */
  lemma BitoHeldCards(s: State, p: nat)
    requires Inv(s) && p == Attacker(s) && s.table != [] && !s.seats[Next(p, |s.seats|)].protectionBroken
    ensures BitoDefined(s, p) && Bito(s, p).Ok?
    ensures AllCards(Bito(s, p).value) + multiset(s.table) == AllCards(s)
  {
    HeldValue(s, p);
    HeldSeatsFacts(s, p);
    HeldStateCards(s, p, HeldSeats(s, p));
  }

  // ----- bito: broken defence -----

  /** The players after a broken defence, before anybody wins: the roles
      rotate twice over and the defender, the seat after the attacker `p`,
      takes the table. */
  function TakenSeats(s: State, p: nat): (r: seq<Seat>)
    requires p < |s.seats|
  {
    var d := Next(p, |s.seats|);
    var nd := Next(d, |s.seats|);
    TakeTable(Rotate(s.seats, p, d, nd), s.table, d, nd)
  }

  /** The state a broken defence leaves before the refill, from the seats
      `t7`: the table is empty, an attacker out of cards with the stock out
      leaves the game, and the turn goes to the seat after the old defender. */
  function TakenState(s: State, p: nat, t7: seq<Seat>): (r: State)
    requires p < |s.seats|
  {
    var nd := Next(Next(p, |s.seats|), |s.seats|);
    if s.stock == [] && s.seats[p].cards == [] then
      State(s.stock, [], GiveTurn(RemoveOrder(t7, p), nd), s.trump, s.winners + [Solo(p)])
    else
      State(s.stock, [], GiveTurn(t7, nd), s.trump, s.winners)
  }

  /** The seats after a broken defence: the seat after the old defender
      attacks, the one after that defends, nobody's protection is broken, the
      old defender holds the table in addition to its hand, and no other
      hand has changed. */
  lemma TakenSeatsFacts(s: State, p: nat)
    requires Inv(s) && p == Attacker(s)
    ensures var d := Next(p, |s.seats|);
            var nd := Next(d, |s.seats|);
            var t7 := TakenSeats(s, p);
            && |t7| == |s.seats| && RolesAt(t7, nd)
            && t7[d].cards == s.seats[d].cards + s.table
            && HandCards(t7) == HandCards(s.seats) + multiset(s.table)
            && forall i :: 0 <= i < |s.seats| ==>
                 t7[i].order == i && !t7[i].protectionBroken && (i != d ==> t7[i].cards == s.seats[i].cards)
  {
    var d := Next(p, |s.seats|);
    var nd := Next(d, |s.seats|);
    RotateRoles(s, p);
    var t3 := Rotate(s.seats, p, d, nd);
    TakeTableRoles(t3, s.table, d);
    HandCardsSame(t3, s.seats);
    forall i | 0 <= i < |s.seats| ensures s.seats[i].protectionBroken ==> i == d {
    }
  }

  lemma TakenValue(s: State, p: nat)
    requires Inv(s) && p == Attacker(s) && s.table != [] && s.seats[Next(p, |s.seats|)].protectionBroken
    ensures BitoDefined(s, p) && Bito(s, p).Ok?
    ensures Bito(s, p).value == RefillAll(TakenState(s, p, TakenSeats(s, p)))
  {
    RotateRoles(s, p);
    TakenSeatsFacts(s, p);
    var d := Next(p, |s.seats|);
    var t3 := Rotate(s.seats, p, d, Next(d, |s.seats|));
    assert t3[d].protectionBroken;
    assert Next(s.seats[d].order, |s.seats|) == Next(d, |s.seats|);
  }

  /** The state before the refill, when nobody wins, keeps the invariant. */
  lemma TakenStateInv(s: State, p: nat)
    requires Inv(s) && p == Attacker(s)
    requires !(s.stock == [] && s.seats[p].cards == [])
    ensures var d := Next(p, |s.seats|);
            var nd := Next(d, |s.seats|);
            var q := TakenState(s, p, TakenSeats(s, p));
            && Inv(q) && Attacker(q) == nd && Defender(q) == Next(nd, |s.seats|) && TurnHolder(q) == nd
            && q.table == [] && q.winners == s.winners && q.stock == s.stock && |q.seats| == |s.seats|
            && q.seats[d].cards == s.seats[d].cards + s.table
            && (forall i :: 0 <= i < |s.seats| && i != d ==> q.seats[i].cards == s.seats[i].cards)
            && (forall i :: 0 <= i < |s.seats| ==> !q.seats[i].protectionBroken)
  {
    var d := Next(p, |s.seats|);
    var nd := Next(d, |s.seats|);
    TakenSeatsFacts(s, p);
    var t7 := TakenSeats(s, p);
    var q := TakenState(s, p, t7);
    assert q.seats == GiveTurn(t7, nd);
    GiveTurnOnly(t7, nd);
    forall i | 0 <= i < |s.seats|
      ensures q.seats[i].order == i && !q.seats[i].protectionBroken && q.seats[i].turn == (i == nd)
      ensures q.seats[i].attacking == (i == nd) && q.seats[i].defending == (i == Next(nd, |s.seats|))
    {
      assert q.seats[i] == t7[i].(turn := i == nd);
    }
    assert TurnAt(q.seats, nd);
    assert RolesAt(q.seats, nd);
    InvFrom(q, nd, nd);
  }

  /** bito after a broken defence, when nobody wins: the invariant holds with
      the seat after the old defender attacking and holding the turn and the
      seat after that defending; the table is empty; the old defender holds
      the table on top of its hand; every hand only grows, to six cards while
      the stock lasts; nobody's protection is broken any more. */
  lemma BitoTakenInv(s: State, p: nat)
    requires Inv(s) && p == Attacker(s) && s.table != [] && s.seats[Next(p, |s.seats|)].protectionBroken
    requires !(s.stock == [] && s.seats[p].cards == [])
    ensures BitoDefined(s, p) && Bito(s, p).Ok?
    ensures var r := Bito(s, p).value;
            var d := Next(p, |s.seats|);
            var nd := Next(d, |s.seats|);
            && Inv(r) && Attacker(r) == nd && Defender(r) == Next(nd, |s.seats|) && TurnHolder(r) == nd
            && r.table == [] && r.winners == s.winners && |r.seats| == |s.seats|
            && s.seats[d].cards + s.table <= r.seats[d].cards
            && (forall i :: 0 <= i < |s.seats| && i != d ==> s.seats[i].cards <= r.seats[i].cards)
            && (forall i :: 0 <= i < |s.seats| ==> r.stock == [] || |r.seats[i].cards| >= HandSize)
            && (forall i :: 0 <= i < |r.seats| ==> !r.seats[i].protectionBroken)
  {
    var d := Next(p, |s.seats|);
    TakenValue(s, p);
    TakenStateInv(s, p);
    var q := TakenState(s, p, TakenSeats(s, p));
    RefillKeepsInv(q);
    var r := RefillAll(q);
    assert q.seats[d].cards <= r.seats[d].cards;
    forall i | 0 <= i < |s.seats| && i != d ensures s.seats[i].cards <= r.seats[i].cards {
      assert q.seats[i].cards <= r.seats[i].cards;
    }
    forall i | 0 <= i < |r.seats| ensures !r.seats[i].protectionBroken {
      assert r.seats[i].Frame() == q.seats[i].Frame();
    }
  }

  /** Who leaves the player list on a broken defence, before the refill. */
  lemma TakenStateOrders(s: State, p: nat, t7: seq<Seat>)
    requires p < |s.seats| && |t7| == |s.seats|
    requires forall i :: 0 <= i < |s.seats| ==> t7[i].order == i && s.seats[i].order == i
    ensures var q := TakenState(s, p, t7);
            var won := s.stock == [] && s.seats[p].cards == [];
            && q.table == [] && q.trump == s.trump
            && (won ==> q.winners == s.winners + [Solo(p)] && Orders(q.seats) == Without(Orders(s.seats), p))
            && (!won ==> q.winners == s.winners && Orders(q.seats) == Orders(s.seats))
  {
    var nd := Next(Next(p, |s.seats|), |s.seats|);
    var won := s.stock == [] && s.seats[p].cards == [];
    var rest := if won then RemoveOrder(t7, p) else t7;
    assert TakenState(s, p, t7).seats == GiveTurn(rest, nd);
    assert Orders(GiveTurn(rest, nd)) == Orders(rest);
    assert Orders(t7) == Orders(s.seats);
    RemoveOrderFacts(t7, p);
  }

  /** Who wins on a broken defence: with the stock out, an attacker out of
      cards wins and leaves the player list; otherwise nobody wins. */
  lemma BitoTakenWinners(s: State, p: nat)
    requires Inv(s) && p == Attacker(s) && s.table != [] && s.seats[Next(p, |s.seats|)].protectionBroken
    ensures BitoDefined(s, p) && Bito(s, p).Ok?
    ensures var r := Bito(s, p).value;
            var won := s.stock == [] && s.seats[p].cards == [];
            && r.table == [] && r.trump == s.trump
            && (won ==> r.winners == s.winners + [Solo(p)] && Orders(r.seats) == Without(Orders(s.seats), p))
            && (!won ==> r.winners == s.winners && Orders(r.seats) == Orders(s.seats))
  {
    TakenValue(s, p);
    TakenSeatsFacts(s, p);
    TakenStateOrders(s, p, TakenSeats(s, p));
    var q := TakenState(s, p, TakenSeats(s, p));
    RefillAllFacts(q);
    RefilledOrders(q, RefillAll(q), |q.seats|);
  }

  /** Handing out the turn and refilling after the table is cleared keep the
      stock and hands together. */
  lemma TurnRefillCards(stock: seq<Card>, rest: seq<Seat>, o: nat, trump: Suit, winners: seq<Winner>)
    ensures AllCards(RefillAll(State(stock, [], GiveTurn(rest, o), trump, winners)))
            == multiset(stock) + HandCards(rest)
  {
    var q := State(stock, [], GiveTurn(rest, o), trump, winners);
    RefillAllFacts(q);
    GiveTurnKeepsCards(rest, o);
  }

  /** Card accounting of a broken defence, from seats holding the table in
      addition to the old hands. */
  lemma TakenStateCards(s: State, p: nat, t7: seq<Seat>)
    requires p < |s.seats| && |t7| == |s.seats|
    requires HandCards(t7) == HandCards(s.seats) + multiset(s.table)
    requires forall i :: 0 <= i < |s.seats| ==> t7[i].order == i
    requires t7[p].cards == s.seats[p].cards
    ensures AllCards(RefillAll(TakenState(s, p, t7))) == AllCards(s)
  {
    var nd := Next(Next(p, |s.seats|), |s.seats|);
    var a, h, t := multiset(s.stock), HandCards(s.seats), multiset(s.table);
    assert a + (h + t) == a + h + t by {
      forall c ensures (a + (h + t))[c] == (a + h + t)[c] { }
    }
    if s.stock == [] && s.seats[p].cards == [] {
      DropWinners(t7, p, p);
      TurnRefillCards(s.stock, RemoveOrder(t7, p), nd, s.trump, s.winners + [Solo(p)]);
    } else {
      TurnRefillCards(s.stock, t7, nd, s.trump, s.winners);
    }
  }

  /** A broken defence loses no card: the defender takes the table, and a
      winner leaving holds none. */
  lemma BitoTakenCards(s: State, p: nat)
    requires Inv(s) && p == Attacker(s) && s.table != [] && s.seats[Next(p, |s.seats|)].protectionBroken
    ensures BitoDefined(s, p) && Bito(s, p).Ok?
    ensures AllCards(Bito(s, p).value) == AllCards(s)
  {
    TakenValue(s, p);
    TakenSeatsFacts(s, p);
    TakenStateCards(s, p, TakenSeats(s, p));
  }
}
