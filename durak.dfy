/** The `Player` and `Game` classes of game.ts as objects updated in place.
    Every method is proved against the value model: its effect on the
    snapshot `Model()` is the matching function of `Rules`, whose properties
    `Rules` and `Invariant` prove. A player passed to a method of the source
    is passed here by its position in `players`. */
module Durak {
  import opened Seqs
  import opened Cards
  import opened Rules

  class Player {
    const order: nat
    const name: string
    var cards: seq<Card>
    var attacking: bool
    var defending: bool
    var protectionBroken: bool
    var turn: bool

    /** The player's fields as a value. */
    function Snapshot(): (s: Seat)
      reads this
    {
      Seat(order, cards, attacking, defending, protectionBroken, turn)
    }

    /** A new player holds no card and carries no flag. */
    constructor(name: string, order: nat)
      ensures this.name == name
      ensures Snapshot() == Seat(order, [], false, false, false, false)
    {
      this.name := name;
      this.order := order;
      cards := [];
      attacking, defending, protectionBroken, turn := false, false, false, false;
    }

    /** addCard: the card goes to the end of the hand. */
    method AddCard(card: Card)
      modifies this
      ensures Snapshot() == old(Snapshot()).(cards := old(cards) + [card])
    {
      cards := cards + [card];
    }

    /** removeCard: every copy of the card leaves the hand, the rest keeps its order. */
    method RemoveCard(card: Card)
      modifies this
      ensures Snapshot() == old(Snapshot()).(cards := Without(old(cards), card))
    {
      cards := Without(cards, card);
    }
  }

  /** The snapshots of a list of players. */
  function Seats(ps: seq<Player>): (r: seq<Seat>)
    reads ps
    ensures |r| == |ps|
    ensures forall i :: 0 <= i < |ps| ==> r[i] == ps[i].Snapshot()
  {
    seq(|ps|, i requires 0 <= i < |ps| reads ps => ps[i].Snapshot())
  }

  lemma SeatsAre(ps: seq<Player>, xs: seq<Seat>)
    requires |ps| == |xs|
    requires forall i :: 0 <= i < |ps| ==> ps[i].Snapshot() == xs[i]
    ensures Seats(ps) == xs
  {
  }

  predicate DistinctOrders(ps: seq<Player>) {
    forall i, j :: 0 <= i < j < |ps| ==> ps[i].order != ps[j].order
  }

  /** In `ps`, `x` is the one player with its order. */
  predicate Identifies(ps: seq<Player>, x: Player) {
    forall j :: 0 <= j < |ps| ==> (ps[j] == x <==> ps[j].order == x.order)
  }

  /** A player of a list with distinct orders is identified by its order in
      any part of that list. */
  lemma IdentifiesIn(all: seq<Player>, ps: seq<Player>, x: Player)
    requires DistinctOrders(all) && x in all
    requires forall y :: y in ps ==> y in all
    ensures Identifies(ps, x)
  {
    forall j | 0 <= j < |ps| && ps[j].order == x.order ensures ps[j] == x {
      assert ps[j] in ps;
      var a :| 0 <= a < |all| && all[a] == ps[j];
      var b :| 0 <= b < |all| && all[b] == x;
      assert a == b;
    }
  }

  /** `players.filter(p => p !== x)`, on snapshots, is dropping the seat with
      `x`'s order. */
  lemma {:induction false} SeatsWithout(ps: seq<Player>, x: Player)
    requires Identifies(ps, x)
    ensures Seats(Without(ps, x)) == RemoveOrder(Seats(ps), x.order)
  {
    if ps != [] {
      var tail := ps[1..];
      SeatsWithout(tail, x);
      var all := Seats(ps);
      assert all == [ps[0].Snapshot()] + Seats(tail);
      assert all[1..] == Seats(tail);
      if ps[0] == x {
        assert Without(ps, x) == Without(tail, x);
        assert RemoveOrder(all, x.order) == RemoveOrder(all[1..], x.order);
      } else {
        assert Without(ps, x) == [ps[0]] + Without(tail, x);
        SeatsAppend([ps[0]], Without(tail, x));
        assert RemoveOrder(all, x.order) == [all[0]] + RemoveOrder(all[1..], x.order);
      }
    }
  }

  lemma SeatsAppend(a: seq<Player>, b: seq<Player>)
    ensures Seats(a + b) == Seats(a) + Seats(b)
  {
    SeatsAre(a + b, Seats(a) + Seats(b));
  }

  /** The filter keeps the orders distinct and only drops players. */
  lemma {:induction false} DistinctWithout(ps: seq<Player>, x: Player)
    requires DistinctOrders(ps)
    ensures DistinctOrders(Without(ps, x))
    ensures forall y :: y in Without(ps, x) ==> y in ps && y != x
    ensures forall y :: y in ps && y != x ==> y in Without(ps, x)
  {
    WithoutFacts(ps, x);
    if ps != [] {
      var tail := ps[1..];
      var rest := Without(tail, x);
      DistinctWithout(tail, x);
      if ps[0] != x {
        assert Without(ps, x) == [ps[0]] + rest;
        forall j | 0 <= j < |rest| ensures ps[0].order != rest[j].order {
          assert rest[j] in rest && rest[j] in tail;
          var b :| 0 <= b < |tail| && tail[b] == rest[j];
          assert ps[b + 1] == rest[j];
        }
      }
    }
  }

  /** `new Game(playerNames)`: fewer than two or more than four names throw
      "Minimum 2 players required" or "Maximum 4 players required" before
      any player exists; otherwise the new game is `Rules.NewGame`'s. */
  method NewGame(playerNames: seq<string>, pick: seq<nat>, fallback: nat) returns (r: Result<Game>)
    requires 2 <= |playerNames| <= 4 ==> fallback < |playerNames|
    requires Picks(pick, PackSize)
    ensures r.Err? <==> |playerNames| < 2 || |playerNames| > 4
    ensures match Rules.NewGame(playerNames, Shuffled(Pack(), pick), fallback)
              case Err(e) => r == Err(e)
              case Ok(s) => r.Ok? && fresh(r.value) && r.value.Valid() && r.value.Model() == s
  {
    if |playerNames| < 2 {
      return Err(MinimumPlayers);
    }
    if |playerNames| > 4 {
      return Err(MaximumPlayers);
    }
    var game := new Game(playerNames, pick, fallback);
    return Ok(game);
  }

  /** `playerNames.map((name, i) => new Player(name, i, this))`. */
  method NewPlayers(playerNames: seq<string>) returns (ps: seq<Player>)
    ensures |ps| == |playerNames| && DistinctOrders(ps)
    ensures forall k :: 0 <= k < |ps| ==> fresh(ps[k]) && ps[k].name == playerNames[k]
    ensures Seats(ps) == EmptySeats(|playerNames|)
  {
    ps := [];
    while |ps| < |playerNames|
      invariant |ps| <= |playerNames|
      invariant forall k :: 0 <= k < |ps| ==> fresh(ps[k]) && ps[k].name == playerNames[k]
      invariant forall k :: 0 <= k < |ps| ==> ps[k].Snapshot() == Seat(k, [], false, false, false, false)
    {
      var p := new Player(playerNames[|ps|], |ps|);
      ps := ps + [p];
    }
    SeatsAre(ps, EmptySeats(|playerNames|));
  }

  /** What the source returns: nothing, or one of its "Invalid ..." strings. */
  datatype Outcome = Done | Refused(error: Error)

  class Game {
    /** The stock; getNewCard pops from its end. */
    var cards: seq<Card>
    var cardsOnTable: seq<Card>
    var players: seq<Player>
    const kingCardType: Suit
    /** Who has won, by seat order. */
    var winners: seq<Winner>

    /** Players keep distinct orders; so they are distinct objects too. */
    predicate Valid()
      reads this
    {
      DistinctOrders(players)
    }

    /** new Game(playerNames) with two to four names: shuffle the pack with
        the draws `pick`, seat the players in list order, deal to each in
        turn, then let the holder of the lowest trump attack with the turn
        (the random seat `fallback` when no hand holds a trump) and the seat
        after it defend: `Rules.Start`. */
    constructor(playerNames: seq<string>, pick: seq<nat>, fallback: nat)
      requires 2 <= |playerNames| <= 4 && fallback < |playerNames|
      requires Picks(pick, PackSize)
      ensures Valid() && |players| == |playerNames|
      ensures forall k :: 0 <= k < |players| ==> players[k].name == playerNames[k]
      ensures Model() == Start(Shuffled(Pack(), pick), |playerNames|, fallback)
    {
      var shuffled := Shuffle(Pack(), pick);
      cards := shuffled;
      cardsOnTable := [];
      kingCardType := shuffled[0].suit;
      winners := [];
      var ps := NewPlayers(playerNames);
      players := ps;
      new;
      Open(shuffled, fallback);
    }

    /** The constructor's body once the players exist: deal to each player in
        list order, scan for the lowest trump, open the attack. */
    method Open(ghost stock: seq<Card>, fallback: nat)
      requires Valid() && 2 <= |players| <= 4 && fallback < |players| && stock != []
      requires Model() == State(stock, [], EmptySeats(|players|), stock[0].suit, [])
      modifies this, players
      ensures Valid() && players == old(players)
      ensures Model() == Start(stock, |players|, fallback)
    {
      var n := |players|;
      ghost var dealt := RefillAll(State(stock, [], EmptySeats(n), stock[0].suit, []));
      RefillHands(players);
      assert Model() == dealt;
      var firstAttacker := LowestTrumpHolder(fallback);
      assert firstAttacker == FirstAttacker(dealt.seats, dealt.trump, fallback);
      assert Start(stock, n, fallback) == dealt.(seats := Rules.OpenAttack(dealt.seats, firstAttacker));
      assert Seats(players) == dealt.seats;
      FirstAttack(firstAttacker);
      assert Seats(players) == Rules.OpenAttack(dealt.seats, firstAttacker);
    }

    /** The constructor's scan: visiting every card of every player in list
        order, the player of the first strictly lowest trump seen, starting
        from level 10 and the seat `fallback`. */
    method LowestTrumpHolder(fallback: nat) returns (firstAttacker: nat)
      requires fallback < |players|
      ensures firstAttacker == FirstAttacker(Seats(players), kingCardType, fallback)
    {
      ghost var seats := Seats(players);
      var smallestLevel := 10;
      firstAttacker := fallback;
      var k := 0;
      while k < |players|
        invariant 0 <= k <= |players|
        invariant Pick(smallestLevel, firstAttacker) == ScanSeats(Pick(10, fallback), seats[..k], kingCardType)
      {
        var hand := players[k].cards;
        var j := 0;
        while j < |hand|
          invariant 0 <= j <= |hand|
          invariant Pick(smallestLevel, firstAttacker)
                    == ScanCards(ScanSeats(Pick(10, fallback), seats[..k], kingCardType), hand[..j], k, kingCardType)
        {
          var card := hand[j];
          assert hand[..j + 1][..j] == hand[..j];
          if card.suit == kingCardType && smallestLevel > card.level {
            smallestLevel := card.level;
            firstAttacker := k;
          }
          j := j + 1;
        }
        assert hand[..j] == hand;
        assert seats[..k + 1][..k] == seats[..k];
        k := k + 1;
      }
      assert seats[..k] == seats;
    }

    /** The constructor's last lines, `firstAttacker.attacking = true`,
        `firstAttacker.turn = true` and the next seat's `defending = true`:
        `Rules.OpenAttack`. */
    method FirstAttack(a: nat)
      requires Valid() && a < |players|
      modifies players
      ensures unchanged(this)
      ensures Seats(players) == Rules.OpenAttack(old(Seats(players)), a)
    {
      var ps := players;
      SetFlags(a, true, ps[a].defending, ps[a].protectionBroken, true);
      var d := Next(ps[a].order, |ps|);
      SetFlags(d, ps[d].attacking, true, ps[d].protectionBroken, ps[d].turn);
    }

    /** Writes to the flags of `players[j]` alone (a flag the source does not
        assign is written with its own value): only seat `j` changes. */
    method SetFlags(j: nat, attacking: bool, defending: bool, protectionBroken: bool, turn: bool)
      requires Valid() && j < |players|
      modifies players[j]
      ensures unchanged(this)
      ensures Seats(players)
              == old(Seats(players))[j := old(players[j].Snapshot()).(attacking := attacking, defending := defending,
                                                                      protectionBroken := protectionBroken, turn := turn)]
    {
      var player := players[j];
      player.attacking, player.defending, player.protectionBroken, player.turn := attacking, defending, protectionBroken, turn;
      SeatsAre(players, old(Seats(players))[j := player.Snapshot()]);
    }

    /** The game's fields as a value. */
    function Model(): (s: State)
      reads this, players
    {
      State(cards, cardsOnTable, Seats(players), kingCardType, winners)
    }

    /** getNewCard: pop the last stock card, if any, into the hand of `players[i]`. */
    method GetNewCard(i: nat)
      requires Valid() && i < |players|
      modifies this, players[i]
      ensures Valid() && players == old(players)
      ensures Model() == Draw(old(Model()), i)
    {
      if |cards| > 0 {
        var card := cards[|cards| - 1];
        cards := cards[..|cards| - 1];
        players[i].AddCard(card);
        SeatsAre(players, old(Model()).seats[i := old(players[i].Snapshot()).(cards := old(players[i].cards) + [card])]);
      }
    }

    /** getFullHand: `6 - |hand|` calls of getNewCard, none when that is not positive. */
    method GetFullHand(i: nat)
      requires Valid() && i < |players|
      modifies this, players[i]
      ensures Valid() && players == old(players)
      ensures Model() == FullHand(old(Model()), i)
    {
      var needCardCount := HandSize - |players[i].cards|;
      assert needCardCount == HandSize - |Model().seats[i].cards|;
      var k := 0;
      while k < needCardCount
        invariant 0 <= k <= (if needCardCount > 0 then needCardCount else 0)
        invariant Valid() && players == old(players)
        invariant Model() == DrawN(old(Model()), i, k)
      {
        GetNewCard(i);
        k := k + 1;
      }
      assert k == Need(|old(Model()).seats[i].cards|);
    }

    /** changePlayersTurn: every listed player loses the turn, then `player`
        gets it. The player may already have left the list, as after a win. */
    method ChangePlayersTurn(player: Player, ghost all: seq<Player>)
      requires Valid()
      requires Identifies(players, player)
      requires player in all && forall k :: 0 <= k < |players| ==> players[k] in all
      modifies all
      ensures players == old(players) && player.turn
      ensures Model() == old(Model()).(seats := GiveTurn(old(Model()).seats, player.order))
    {
      var k := 0;
      while k < |players|
        invariant 0 <= k <= |players|
        invariant forall j :: 0 <= j < k ==> players[j].Snapshot() == old(players[j].Snapshot()).(turn := false)
        invariant forall j :: k <= j < |players| ==> players[j].Snapshot() == old(players[j].Snapshot())
      {
        players[k].turn := false;
        k := k + 1;
      }
      player.turn := true;
      SeatsAre(players, GiveTurn(old(Model()).seats, player.order));
    }
  
    /** getAttackingPlayer: the first attacking player, `|players|` for `undefined`. */
    function AttackingPlayer(): (i: nat)
      reads this, players
      ensures i <= |players|
      ensures i < |players| ==> players[i].attacking
      ensures forall j :: 0 <= j < i ==> !players[j].attacking
    {
      FindIsFirst(Seats(players), Attacking);
      Find(Seats(players), Attacking)
    }

    /** getDefendingPlayer: the first defending player, `|players|` for `undefined`. */
    function DefendingPlayer(): (i: nat)
      reads this, players
      ensures i <= |players|
      ensures i < |players| ==> players[i].defending
      ensures forall j :: 0 <= j < i ==> !players[j].defending
    {
      FindIsFirst(Seats(players), Defending);
      Find(Seats(players), Defending)
    }

    /** isPossibleMove, read off the fields: the caller must hold the turn and
        the card; an attacker may open or match a level on the table, a
        defender must beat the top card, anyone else may not move. */
    function IsPossibleMove(card: Card, i: nat): (r: bool)
      reads this, players
      requires i < |players| && CanPlayDefined(players[i].Snapshot(), cardsOnTable, card)
      ensures r ==> players[i].turn && card in players[i].cards
      ensures players[i].turn && card in players[i].cards && players[i].attacking ==>
                (r <==> cardsOnTable == []
                        || exists k :: 0 <= k < |cardsOnTable| && cardsOnTable[k].level == card.level)
      ensures players[i].turn && card in players[i].cards && !players[i].attacking && players[i].defending ==>
                (r <==> Beats(card, cardsOnTable[|cardsOnTable| - 1], kingCardType))
      ensures !players[i].attacking && !players[i].defending ==> !r
    {
      CanPlayCases(players[i].Snapshot(), cardsOnTable, kingCardType, card);
      CanPlay(players[i].Snapshot(), cardsOnTable, kingCardType, card)
    }

    /** move(card, player): an illegal move answers "Invalid move" and changes
        nothing; a legal one is `Rules.Move`. */
    method Move(card: Card, i: nat) returns (r: Outcome)
      requires Valid() && MoveDefined(Model(), i, card)
      modifies this, players
      ensures Valid() && players == old(players)
      ensures match Rules.Move(old(Model()), i, card)
                case Ok(next) => r == Done && Model() == next
                case Err(e) => r == Refused(e) && Model() == old(Model())
    {
      if !IsPossibleMove(card, i) {
        return Refused(InvalidMove);
      }
      MakeMove(card, i);
      r := Done;
    }

    /** A legal move: the card goes on the table and the turn passes. */
    method MakeMove(card: Card, i: nat)
      requires Valid() && MoveDefined(Model(), i, card)
      requires CanPlay(Model().seats[i], Model().table, Model().trump, card)
      modifies this, players
      ensures Valid() && players == old(players)
      ensures Rules.Move(old(Model()), i, card).Ok? && Model() == Rules.Move(old(Model()), i, card).value
    {
      ghost var s := Model();
      var player := players[i];
      PlayCard(card, i);
      ghost var seats := s.seats[i := s.seats[i].(cards := Without(s.seats[i].cards, card))];
      FindRespectsFlags(s.seats, seats, Attacking);
      FindRespectsFlags(s.seats, seats, Defending);
      ghost var played := s.(seats := seats, table := s.table + [card]);
      assert Model() == played;
      if player.defending {
        var a := AttackingPlayer();
        assert Rules.Move(s, i, card) == Ok(played.(seats := GiveTurn(seats, seats[a].order)));
        IdentifiesIn(players, players, players[a]);
        ChangePlayersTurn(players[a], players);
      } else {
        var d := DefendingPlayer();
        if !players[d].protectionBroken {
          assert Rules.Move(s, i, card) == Ok(played.(seats := GiveTurn(seats, seats[d].order)));
          IdentifiesIn(players, players, players[d]);
          ChangePlayersTurn(players[d], players);
        } else {
          assert Rules.Move(s, i, card) == Ok(played);
        }
      }
    }

    /** The first lines of move: the card leaves the hand of `players[i]`
        and goes on top of the table. */
    method PlayCard(card: Card, i: nat)
      requires Valid() && i < |players|
      modifies this, players[i]
      ensures Valid() && players == old(players)
      ensures var s := old(Model());
              Model() == s.(seats := s.seats[i := s.seats[i].(cards := Without(s.seats[i].cards, card))],
                            table := s.table + [card])
    {
      ghost var s := Model();
      players[i].RemoveCard(card);
      cardsOnTable := cardsOnTable + [card];
      SeatsAre(players, s.seats[i := s.seats[i].(cards := Without(s.seats[i].cards, card))]);
    }

    /** missAttack(player): `Rules.MissAttack`. */
    method MissAttack(i: nat)
      requires Valid() && i < |players| && Find(Model().seats, Attacking) < |players|
      modifies players
      ensures Model() == Rules.MissAttack(old(Model()), i)
    {
      ghost var s := Model();
      ghost var seats := s.seats;
      if players[i].defending {
        players[i].protectionBroken := true;
        seats := s.seats[i := s.seats[i].(protectionBroken := true)];
        assert Model() == s.(seats := seats) by {
          SeatsAre(players, seats);
        }
      }
      FindRespectsFlags(s.seats, seats, Attacking);
      var a := AttackingPlayer();
      assert Rules.MissAttack(s, i) == s.(seats := GiveTurn(seats, seats[a].order));
      IdentifiesIn(players, players, players[a]);
      ChangePlayersTurn(players[a], players);
    }
  
    /** Lines 151-157 of bito: the defender `players[d]` attacks instead of
        defending, the caller `players[i]` stops attacking and `players[nd]`
        defends, one write after the other. */
    method RotateRoles(i: nat, d: nat, nd: nat)
      requires Valid() && i < |players| && d < |players| && nd < |players|
      modifies players
      ensures unchanged(this)
      ensures Seats(players) == Rotate(old(Seats(players)), i, d, nd)
    {
      var ps := players;
      SetFlags(d, true, false, ps[d].protectionBroken, ps[d].turn);
      SetFlags(i, false, ps[i].defending, ps[i].protectionBroken, ps[i].turn);
      SetFlags(nd, ps[nd].attacking, true, ps[nd].protectionBroken, ps[nd].turn);
    }

    /** Line 159 of bito: `players[d]` takes the table card by card. */
    method TakeTableCards(d: nat)
      requires Valid() && d < |players|
      modifies players[d]
      ensures unchanged(this)
      ensures Seats(players) == old(Seats(players))[d := old(Seats(players))[d].(cards := old(Seats(players))[d].cards + cardsOnTable)]
    {
      var ps := players;
      var defendingPlayer := ps[d];
      ghost var t3 := Seats(ps);
      assert t3[d].(cards := t3[d].cards + cardsOnTable[..0]) == t3[d];
      var k := 0;
      while k < |cardsOnTable|
        invariant 0 <= k <= |cardsOnTable|
        invariant Seats(ps) == t3[d := t3[d].(cards := t3[d].cards + cardsOnTable[..k])]
      {
        defendingPlayer.AddCard(cardsOnTable[k]);
        assert cardsOnTable[..k + 1] == cardsOnTable[..k] + [cardsOnTable[k]];
        SeatsAre(ps, t3[d := t3[d].(cards := t3[d].cards + cardsOnTable[..k + 1])]);
        k := k + 1;
      }
      assert cardsOnTable[..k] == cardsOnTable;
    }

    /** Lines 160-167 of bito: `players[nd]` attacks instead of defending,
        `players[d]` goes idle with its protection mended, and the player
        after `players[nd]` defends. */
    method HandOverAttack(d: nat, nd: nat)
      requires Valid() && d < |players| && nd < |players|
      modifies players
      ensures unchanged(this)
      ensures var t4 := old(Seats(players));
              var t5 := t4[nd := t4[nd].(attacking := true, defending := false)];
              var t6 := t5[d := t5[d].(defending := false, attacking := false, protectionBroken := false)];
              var nn := Next(t6[nd].order, |t4|);
              Seats(players) == t6[nn := t6[nn].(defending := true)]
    {
      var ps := players;
      SetFlags(nd, true, false, ps[nd].protectionBroken, ps[nd].turn);
      SetFlags(d, false, false, false, ps[d].turn);
      var nn := Next(ps[nd].order, |ps|);
      SetFlags(nn, ps[nn].attacking, true, ps[nn].protectionBroken, ps[nn].turn);
    }

    /** Lines 159-167 of bito, a broken defence: `Rules.TakeTable`. */
    method TakeTable(d: nat, nd: nat)
      requires Valid() && d < |players| && nd < |players|
      modifies players
      ensures unchanged(this)
      ensures Seats(players) == Rules.TakeTable(old(Seats(players)), cardsOnTable, d, nd)
    {
      TakeTableCards(d);
      HandOverAttack(d, nd);
    }

    /** `players = players.filter(p => p !== x)`. */
    method RemovePlayer(x: Player)
      requires Valid() && Identifies(players, x)
      modifies this
      ensures Valid() && x !in players && forall y :: y in players ==> y in old(players)
      ensures forall k :: 0 <= k < |players| ==> players[k] in old(players)
      ensures Model() == old(Model()).(seats := RemoveOrder(old(Model()).seats, x.order))
    {
      SeatsWithout(players, x);
      DistinctWithout(players, x);
      WithoutFacts(players, x);
      players := Without(players, x);
    }

    /** `cardsOnTable = []`. */
    method ClearTable()
      requires Valid()
      modifies this
      ensures Valid() && players == old(players)
      ensures Model() == old(Model()).(table := [])
    {
      cardsOnTable := [];
    }

    /** `players.forEach(p => this.getFullHand(p))`. */
    method RefillHands(ghost all: seq<Player>)
      requires Valid() && forall k :: 0 <= k < |players| ==> players[k] in all
      modifies this, all
      ensures Valid() && players == old(players)
      ensures Model() == RefillAll(old(Model()))
    {
      var k := 0;
      while k < |players|
        invariant 0 <= k <= |players|
        invariant Valid() && players == old(players)
        invariant Model() == RefillUpTo(old(Model()), k)
      {
        GetFullHand(k);
        k := k + 1;
      }
    }

    /** Lines 159-172 of bito, a broken defence: `Rules.Taken`. */
    method BrokenDefence(i: nat, d: nat, nd: nat)
      requires Valid() && i < |players| && d < |players| && nd < |players|
      modifies this, players
      ensures Valid() && forall k :: 0 <= k < |players| ==> players[k] in old(players)
      ensures Model() == Taken(old(Model()), i, d, nd)
    {
      ghost var s := Model();
      ghost var all := players;
      var player, nextDefendingPlayer := players[i], players[nd];
      TakeTable(d, nd);
      ghost var t7 := Rules.TakeTable(s.seats, s.table, d, nd);
      assert Model() == s.(seats := t7);
      assert player.order == s.seats[i].order && player.Snapshot() == t7[i];
      assert nextDefendingPlayer.order == t7[nd].order;
      ghost var me := s.seats[i].order;
      ghost var rest := t7;
      if |cards| < 1 && |player.cards| < 1 {
        winners := winners + [Solo(player.order)];
        assert Model() == s.(seats := t7, winners := s.winners + [Solo(me)]);
        IdentifiesIn(all, players, player);
        RemovePlayer(player);
        rest := RemoveOrder(t7, me);
      }
      assert Taken(s, i, d, nd) == s.(seats := GiveTurn(rest, t7[nd].order), winners := winners);
      assert Model() == s.(seats := rest, winners := winners);
      IdentifiesIn(all, players, nextDefendingPlayer);
      ChangePlayersTurn(nextDefendingPlayer, all);
    }

    /** Lines 174-182 of bito, a held defence: `Rules.Held`. */
    method HeldDefence(i: nat, d: nat)
      requires Valid() && i < |players| && d < |players|
      modifies this, players
      ensures Valid() && forall k :: 0 <= k < |players| ==> players[k] in old(players)
      ensures Model() == Held(old(Model()), i, d)
    {
      ghost var s := Model();
      ghost var all := players;
      var player, defendingPlayer := players[i], players[d];
      IdentifiesIn(all, players, defendingPlayer);
      ChangePlayersTurn(defendingPlayer, all);
      ghost var t4 := GiveTurn(s.seats, s.seats[d].order);
      assert Model() == s.(seats := t4);
      assert player.Snapshot() == t4[i] && defendingPlayer.Snapshot() == t4[d];
      ghost var me := s.seats[i].order;
      assert player.order == me;
      if |cards| < 1 && |player.cards| < 1 && |defendingPlayer.cards| < 1 {
        winners := winners + [Pair(player.order, defendingPlayer.order)];
        assert Model() == s.(seats := t4, winners := s.winners + [Pair(me, t4[d].order)]);
        IdentifiesIn(all, players, player);
        RemovePlayer(player);
        assert Model() == s.(seats := RemoveOrder(t4, me), winners := s.winners + [Pair(me, t4[d].order)]);
        IdentifiesIn(all, players, defendingPlayer);
        RemovePlayer(defendingPlayer);
        assert Held(s, i, d) == s.(seats := RemoveOrder(RemoveOrder(t4, me), t4[d].order),
                                   winners := s.winners + [Pair(me, t4[d].order)]);
      } else if |cards| < 1 && |player.cards| < 1 {
        winners := winners + [Solo(player.order)];
        assert Model() == s.(seats := t4, winners := s.winners + [Solo(me)]);
        IdentifiesIn(all, players, player);
        RemovePlayer(player);
        assert Held(s, i, d) == s.(seats := RemoveOrder(t4, me), winners := s.winners + [Solo(me)]);
      } else {
        assert Held(s, i, d) == s.(seats := t4);
      }
    }

    /** bito(player): when the table is empty or the caller does not attack it
        answers "Invalid bito" and changes nothing; otherwise it is `Rules.Bito`. */
    method Bito(i: nat) returns (r: Outcome)
      requires Valid() && BitoDefined(Model(), i)
      modifies this, players
      ensures Valid()
      ensures match Rules.Bito(old(Model()), i)
                case Ok(next) => r == Done && Model() == next
                case Err(e) => r == Refused(e) && Model() == old(Model())
    {
      if !(|cardsOnTable| > 0 && players[i].attacking) {
        return Refused(InvalidBito);
      }
      ghost var s := Model();
      ghost var all := players;
      var d := DefendingPlayer();
      var nd := Next(players[d].order, |players|);
      ghost var rotated := s.(seats := Rotate(s.seats, i, d, nd));
      RotateRoles(i, d, nd);
      assert Model() == rotated;
      ghost var mid: State;
      if players[d].protectionBroken {
        mid := Taken(rotated, i, d, nd);
        BrokenDefence(i, d, nd);
      } else {
        mid := Held(rotated, i, d);
        HeldDefence(i, d);
      }
      assert Rules.Bito(s, i) == Ok(RefillAll(mid.(table := [])));
      ClearTable();
      RefillHands(all);
      r := Done;
    }
  }
}
