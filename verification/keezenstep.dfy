/** The Keezen game's transitions (keezen/game.py `init_game` and
    `step`; `step_back` is `Common.StepBack`): starting a game, dealing a
    round, playing a move, and the card bookkeeping every step keeps. The shuffles are inputs: `keys`
    picks the permutation (see `Cards.Shuffle`). */
module KeezenStep {
  import opened Common
  import opened Layout
  import opened BoardState
  import opened Cards
  import opened Rules
  import opened Moves
  import opened Seats
  import opened KeezenGame
  import opened KeezenDeal
  import opened KeezenBoard

  /** What `step` returns: the new state, the reward vector and whether
      the game is over. */
  datatype StepResult = StepResult(state: GameState, rewards: seq<nat>, done: bool)

  /** Every seat plays its own colour: `players_play_with_color` at the
      start. */
  const OwnColours: seq<Color> := [0, 1, 2, 3]

  /** `init_game`: all marbles on their wait fields, the shuffled deck as
      stock, seat `player_start` deals the first round and the seat after
      it moves first. A game type without cards fails at its first deal. */
  function InitGame(rules: Rules, keys: seq<nat>): (r: Result<GameState>)
    ensures r.Ok? <==> rules.variant != OtherVariant
    ensures r.Ok? ==> var gs := r.value;
              && Seated(gs)
              && gs.board == InitialBoard(Keezen)
              && gs.playsWith == OwnColours
              && gs.dealer == PlayerStart && gs.mover == NextSeat(PlayerStart, NumPlayers)
              && gs.round == 0 && gs.moveNumber == 0
              && Pool(gs.cards) == multiset(InitializeCards(rules.variant))
              && gs.cards.played == []
              && |gs.cards.stock| == |InitializeCards(rules.variant)| - NumPlayers * CardsPerRound[0]
              && forall p :: 0 <= p < NumPlayers ==> |gs.cards.hands[p]| == CardsPerRound[0]
  {
    var deck := InitializeCards(rules.variant);
    var cs := InitialCardState(deck, NumPlayers, keys);
    assert |cs.stock| == |deck|;
    match DealCards(PlayerStart, cs, 0)
    case Err(e) => Err(e)
    case Ok(dealt) =>
      DealCardsShares(PlayerStart, cs, 0);
      Ok(GameState(InitialBoard(Keezen), dealt, OwnColours, PlayerStart, NextSeat(PlayerStart, NumPlayers), 0, 0))
  }

  /** The DEAL branch of `step`: only at the end of a round; the next
      round; a new shuffle of all cards when the stock has run out; the
      next dealer (on every round, as `rotate_dealer_each_round` is set);
      and the round's cards dealt from the seat after the new dealer. */
  function DealStep(gs: GameState, keys: seq<nat>): (r: Result<GameState>)
    requires Seated(gs)
    ensures !IsRoundOver(gs) ==> r.Err?
    ensures r.Ok? ==> var gs' := r.value;
              && gs'.round == gs.round + 1
              && gs'.dealer == NextSeat(gs.dealer, NumPlayers)
              && gs'.board == gs.board && gs'.playsWith == gs.playsWith
              && gs'.mover == gs.mover && gs'.moveNumber == gs.moveNumber
              && |gs'.cards.hands| == NumPlayers
  {
    if !IsRoundOver(gs) then Err("Cannot deal when round is not finished.")
    else
      var round := gs.round + 1;
      var (cards, dealer) := Restock(gs, keys);
      match DealCards(dealer, cards, round)
      case Err(e) => Err(e)
      case Ok(dealt) => Ok(gs.(cards := dealt, dealer := dealer, round := round))
  }

  /** The cards and the dealer a deal starts from: a stock that has run
      out is refilled with every card, shuffled, and the deal passes on. */
  function Restock(gs: GameState, keys: seq<nat>): (r: (CardState, nat))
    requires Seated(gs)
    ensures r.1 < NumPlayers && |r.0.hands| == NumPlayers
    ensures |r.0.stock| == if |gs.cards.stock| == 0 then CardCount(gs.cards) else |gs.cards.stock|
  {
    var next := NextSeat(gs.dealer, NumPlayers);
    if |gs.cards.stock| == 0 then
      ResetCount(gs.cards, keys);
      (ResetCards(gs.cards, keys), next)
    else if RotateDealerEachRound then (gs.cards, next)
    else (gs.cards, gs.dealer)
  }

  /** What a deal does to the cards: every hand, empty at the end of the
      round, receives the new round's number of cards, none lost; the
      stock is shuffled anew exactly when it had run out. */
  lemma DealStepCards(gs: GameState, keys: seq<nat>)
    requires Seated(gs) && DealStep(gs, keys).Ok?
    ensures var cs' := DealStep(gs, keys).value.cards;
            var m := CardsPerRound[(gs.round + 1) % |CardsPerRound|];
            && Pool(cs') == Pool(gs.cards)
            && (forall p :: 0 <= p < NumPlayers ==> |cs'.hands[p]| == m)
            && |cs'.stock| == (if |gs.cards.stock| == 0 then CardCount(gs.cards) else |gs.cards.stock|) - NumPlayers * m
  {
    var cards := if |gs.cards.stock| == 0 then ResetCards(gs.cards, keys) else gs.cards;
    var dealer := NextSeat(gs.dealer, NumPlayers);
    DealCardsShares(dealer, cards, gs.round + 1);
    if |gs.cards.stock| == 0 {
      ResetCount(gs.cards, keys);
    }
  }

  /** The colour switch of `step`: with switching on, a player whose own
      colour is finished while the team mate's is not, and who still plays
      the own colour, takes over the team mate's colour. */
  predicate Switches(rules: Rules, b: Board, playsWith: seq<Color>, me: nat)
    requires me < NumPlayers && |playsWith| == NumPlayers
  {
    && rules.switchColor
    && Finished(rules, b, me)
    && !Finished(rules, b, PartnerSeat(me))
    && playsWith[me] == me
  }

  /** The branch of `step` for every move but DEAL: the cards leave the
      hand for the played pile, each marble move and then its hits are
      applied, the mover may switch colour, and the move counter goes up
      by one. Playing a single card that is not in the hand raises. */
  function PlayStep(rules: Rules, gs: GameState, mv: Move): (r: Result<GameState>)
    requires Seated(gs)
    ensures r.Ok? <==> PlayCards(gs.cards, mv.player, mv.cards).Ok?
    ensures r.Ok? ==> var gs' := r.value;
              && gs'.cards == PlayCards(gs.cards, mv.player, mv.cards).value
              && gs'.board == ApplyMarbleMoves(gs.board, mv.marbleMoves)
              && gs'.moveNumber == gs.moveNumber + 1
              && gs'.dealer == gs.dealer && gs'.mover == gs.mover && gs'.round == gs.round
              && |gs'.playsWith| == NumPlayers
              // only the mover's colour can change, and only by the switch
              && (forall p :: 0 <= p < NumPlayers && p != gs.mover ==> gs'.playsWith[p] == gs.playsWith[p])
              && gs'.playsWith[gs.mover] ==
                   (if Switches(rules, gs'.board, gs.playsWith, gs.mover) then PartnerSeat(gs.mover)
                    else gs.playsWith[gs.mover])
  {
    match PlayCards(gs.cards, mv.player, mv.cards)
    case Err(e) => Err(e)
    case Ok(cards) =>
      var b := ApplyMarbleMoves(gs.board, mv.marbleMoves);
      var me := gs.mover;
      var playsWith := if Switches(rules, b, gs.playsWith, me) then gs.playsWith[me := PartnerSeat(me)] else gs.playsWith;
      Ok(gs.(board := b, cards := cards, playsWith := playsWith, moveNumber := gs.moveNumber + 1))
  }

  /** The state change of `step`, before the turn passes: a DEAL or
      another move changes the state as above, no move at all changes
      nothing, and the mover stays the one who moved. */
  function Transition(rules: Rules, gs: GameState, move: Option<Move>, keys: seq<nat>): (r: Result<GameState>)
    requires Seated(gs)
    ensures move.None? ==> r == Ok(gs)
    ensures move.Some? && move.value.kind == DealMove ==> r == DealStep(gs, keys)
    ensures move.Some? && move.value.kind != DealMove ==> r == PlayStep(rules, gs, move.value)
    ensures r.Ok? ==> Seated(r.value) && r.value.mover == gs.mover
  {
    if move.None? then Ok(gs)
    else if move.value.kind == DealMove then DealStep(gs, keys)
    else PlayStep(rules, gs, move.value)
  }

  /** `step`: `is_over` is asked of the state after the transition, whose
      mover is still the one who moved; the rewards are its vector when
      the game is over and all zero otherwise; and the turn passes to the
      seat after the dealer after a deal, else to the seat after the
      mover. */
  function Step(rules: Rules, gs: GameState, move: Option<Move>, keys: seq<nat>): (r: Result<StepResult>)
    requires Seated(gs)
    ensures r.Ok? <==> Transition(rules, gs, move, keys).Ok?
    ensures r.Ok? ==> var g := Transition(rules, gs, move, keys).value;
              && Seated(r.value.state)
              && r.value.state.(mover := gs.mover) == g
              && r.value.state.mover ==
                   (if move.Some? && move.value.kind == DealMove then NextSeat(g.dealer, NumPlayers)
                    else NextSeat(gs.mover, NumPlayers))
    ensures r.Ok? ==> |r.value.rewards| == NumPlayers
    // done is asked with the mover who made the move
    ensures r.Ok? ==> r.value.done == IsOver(rules, r.value.state.(mover := gs.mover)).Some?
    ensures r.Ok? && r.value.done ==> r.value.rewards == IsOver(rules, r.value.state.(mover := gs.mover)).value
    ensures r.Ok? && !r.value.done ==> forall i :: 0 <= i < NumPlayers ==> r.value.rewards[i] == 0
  {
    match Transition(rules, gs, move, keys)
    case Err(e) => Err(e)
    case Ok(g) =>
      var over := IsOver(rules, g);
      var rewards := if over.Some? then over.value else [0, 0, 0, 0];
      var mover := if move.Some? && move.value.kind == DealMove then NextSeat(g.dealer, NumPlayers)
                   else NextSeat(g.mover, NumPlayers);
      assert g.(mover := mover).(mover := gs.mover) == g;
      Ok(StepResult(g.(mover := mover), rewards, over.Some?))
  }

  // ------------------------------------------------------------ the cards

  /** The cards left in the stock after the first k + 1 rounds of the
      schedule have been dealt from a full deck. */
  function StockLeft(k: nat): (n: int)
    requires k < |CardsPerRound|
  {
    |InitializeCards(Keez)| - NumPlayers * Sum(CardsPerRound[..k + 1])
  }

  /** The bookkeeping of a running game: four seats, each playing its
      own colour or its team mate's, the cards as dealt, and a well-formed
      board whose home fields hold marbles of their own colour. */
  ghost predicate Dealt(gs: GameState)
  {
    Seated(gs) && CardsDealt(gs.cards, gs.round) && ColoursOk(gs.playsWith) && GoodBoard(gs.board)
  }

  /** The 52 cards are all somewhere, and the stock holds what the
      schedule has not dealt yet in the current cycle of rounds. */
  ghost predicate CardsDealt(cs: CardState, round: nat)
  {
    CardCount(cs) == |InitializeCards(Keez)| && |cs.stock| == StockLeft(round % |CardsPerRound|)
  }

  /** Every seat plays its own colour or its team mate's. */
  predicate ColoursOk(playsWith: seq<Color>)
  {
    |playsWith| == NumPlayers && forall p :: 0 <= p < NumPlayers ==> playsWith[p] == p || playsWith[p] == PartnerSeat(p)
  }

  /** The stock runs out exactly at the last round of a cycle, so the
      restock branch of a deal is taken exactly then. */
  lemma StockSchedule(cs: CardState, round: nat)
    requires CardsDealt(cs, round)
    ensures |cs.stock| == 0 <==> round % |CardsPerRound| == |CardsPerRound| - 1
    ensures |cs.stock| == 0 || |cs.stock| >= NumPlayers * CardsPerRound[(round + 1) % |CardsPerRound|]
  {
    ScheduleSums();
  }

  lemma ScheduleSums()
    ensures StockLeft(0) == 32 && StockLeft(1) == 16 && StockLeft(2) == 0
  {
    assert CardsPerRound[..1] == [5] && CardsPerRound[..2] == [5, 4] && CardsPerRound[..3] == [5, 4, 4];
    assert [5, 4][1..] == [4] && [5, 4, 4][1..] == [4, 4] && [4, 4][1..] == [4];
    assert Sum([4]) == 4 && Sum([5]) == 5;
    assert Sum([4, 4]) == 8 && Sum([5, 4]) == 9;
    assert Sum([5, 4, 4]) == 13;
  }

  /** A new game is a running game. */
  lemma InitDealt(rules: Rules, keys: seq<nat>)
    requires rules.variant != OtherVariant
    ensures Dealt(InitGame(rules, keys).value)
  {
    InitCardsDealt(rules, keys);
    InitColours(rules, keys);
    InitialBoardGood();
  }

  lemma InitColours(rules: Rules, keys: seq<nat>)
    requires rules.variant != OtherVariant
    ensures ColoursOk(InitGame(rules, keys).value.playsWith)
  {
    assert InitGame(rules, keys).value.playsWith == OwnColours;
  }

  lemma InitCardsDealt(rules: Rules, keys: seq<nat>)
    requires rules.variant != OtherVariant
    ensures CardsDealt(InitGame(rules, keys).value.cards, 0)
  {
    var cs := InitGame(rules, keys).value.cards;
    var n := |InitializeCards(rules.variant)|;
    assert n == |InitializeCards(Keez)| == 52;
    assert |Pool(cs)| == n;
    CountIsPoolSize(cs);
    ScheduleSums();
    assert |cs.stock| == 32;
  }

  /** When a deal succeeds: it does exactly when the stock, restocked if
      it had run out, holds the new round's cards. */
  lemma DealStepOk(gs: GameState, keys: seq<nat>)
    requires Seated(gs) && IsRoundOver(gs)
    ensures var m := CardsPerRound[(gs.round + 1) % |CardsPerRound|];
            DealStep(gs, keys).Ok? <==>
              NumPlayers * m <= if |gs.cards.stock| == 0 then CardCount(gs.cards) else |gs.cards.stock|
  {
    var (cards, dealer) := Restock(gs, keys);
    assert DealStep(gs, keys).Ok? <==> DealCards(dealer, cards, gs.round + 1).Ok?;
  }

  /** A deal at the end of a round of a running game never fails and
      keeps the cards as dealt. */
  lemma DealKeepsCards(gs: GameState, keys: seq<nat>)
    requires Seated(gs) && IsRoundOver(gs) && CardsDealt(gs.cards, gs.round)
    ensures DealStep(gs, keys).Ok?
    ensures CardsDealt(DealStep(gs, keys).value.cards, gs.round + 1)
  {
    ScheduleSums();
    NextRound(gs.round);
    CountIsPoolSize(gs.cards);
    var k := gs.round % 3;
    var m := CardsPerRound[(gs.round + 1) % 3];
    var n := if |gs.cards.stock| == 0 then CardCount(gs.cards) else |gs.cards.stock|;
    assert n == 4 * m + StockLeft((gs.round + 1) % 3) by {
      if k == 0 {
        assert |gs.cards.stock| == 32 && m == 4;
      } else if k == 1 {
        assert |gs.cards.stock| == 16 && m == 4;
      } else {
        assert |gs.cards.stock| == 0 && m == 5;
      }
    }
    DealStepOk(gs, keys);
    DealStepCards(gs, keys);
    var cs' := DealStep(gs, keys).value.cards;
    CountIsPoolSize(cs');
    assert CardCount(cs') == |InitializeCards(Keez)|;
    assert |cs'.stock| == StockLeft((gs.round + 1) % |CardsPerRound|);
  }

  lemma NextRound(r: nat)
    ensures (r + 1) % 3 == if r % 3 == 2 then 0 else r % 3 + 1
  {
  }

  /** A deal keeps the game running. */
  lemma DealKeepsDealt(gs: GameState, keys: seq<nat>)
    requires Dealt(gs) && IsRoundOver(gs)
    ensures DealStep(gs, keys).Ok?
    ensures Dealt(DealStep(gs, keys).value)
  {
    DealKeepsCards(gs, keys);
  }

  /** The moves `get_allowed_moves` offers other than the deal are the
      mover's, and play a card of the hand or throw the whole hand. */
  lemma AllowedPlayable(rules: Rules, gs: GameState, mv: Move)
    requires Seated(gs) && mv in AllowedMoves(rules, gs) && mv.kind != DealMove
    ensures mv.player == gs.mover
    ensures |mv.cards| == 1 ==> mv.cards[0] in gs.cards.hands[gs.mover]
    ensures |mv.cards| != 1 ==> mv.cards == gs.cards.hands[gs.mover]
  {
    var hand := gs.cards.hands[gs.mover];
    if mv.kind == ThrowCards {
      assert mv == Move(ThrowCards, gs.mover, hand, []);
    } else {
      var c :| c in Dedup(hand) && mv in CardMoves(rules.variant, gs.mover, gs.playsWith[gs.mover], c, gs.board);
    }
  }

  /** Playing a card of one's hand, or the whole hand, loses no card and
      leaves the stock alone. */
  lemma PlayKeepsCards(cs: CardState, p: nat, cards: seq<Card>, round: nat)
    requires p < |cs.hands| && CardsDealt(cs, round)
    requires |cards| == 1 ==> cards[0] in cs.hands[p]
    requires |cards| != 1 ==> cards == cs.hands[p]
    ensures PlayCards(cs, p, cards).Ok?
    ensures Pool(PlayCards(cs, p, cards).value) == Pool(cs)
    ensures CardsDealt(PlayCards(cs, p, cards).value, round)
  {
    PlayConserves(cs, p, cards);
    CountIsPoolSize(cs);
    CountIsPoolSize(PlayCards(cs, p, cards).value);
  }

  /** The colour switch keeps every seat on its own colour or its team
      mate's. */
  lemma PlayKeepsColours(rules: Rules, gs: GameState, mv: Move)
    requires Seated(gs) && ColoursOk(gs.playsWith) && PlayStep(rules, gs, mv).Ok?
    ensures ColoursOk(PlayStep(rules, gs, mv).value.playsWith)
  {
    var pw := PlayStep(rules, gs, mv).value.playsWith;
    forall p | 0 <= p < NumPlayers
      ensures pw[p] == p || pw[p] == PartnerSeat(p)
    {
      if p != gs.mover {
        assert pw[p] == gs.playsWith[p];
      }
    }
  }

  /** Every move `get_allowed_moves` offers can be played, loses no card,
      and keeps the game running: in particular the board stays well
      formed. */
  lemma PlayKeepsDealt(rules: Rules, gs: GameState, mv: Move)
    requires Dealt(gs) && mv in AllowedMoves(rules, gs) && mv.kind != DealMove
    ensures PlayStep(rules, gs, mv).Ok?
    ensures Pool(PlayStep(rules, gs, mv).value.cards) == Pool(gs.cards)
    ensures Dealt(PlayStep(rules, gs, mv).value)
  {
    AllowedPlayable(rules, gs, mv);
    PlayKeepsCards(gs.cards, mv.player, mv.cards, gs.round);
    assert PlayCards(gs.cards, mv.player, mv.cards).Ok?;
    var gs' := PlayStep(rules, gs, mv).value;
    assert gs'.cards == PlayCards(gs.cards, mv.player, mv.cards).value && gs'.round == gs.round;
    PlayKeepsColours(rules, gs, mv);
    AllowedKeepsBoard(rules, gs, mv);
  }

  /** The running-game bookkeeping holds after every step made with a move
      `get_allowed_moves` offers, or with none, and such a step never
      fails. */
  lemma StepKeepsDealt(rules: Rules, gs: GameState, move: Option<Move>, keys: seq<nat>)
    requires Dealt(gs)
    requires move.Some? ==> move.value in AllowedMoves(rules, gs)
    ensures Step(rules, gs, move, keys).Ok?
    ensures Dealt(Step(rules, gs, move, keys).value.state)
  {
    if move.Some? {
      var mv := move.value;
      if mv.kind == DealMove {
        assert IsRoundOver(gs);
        DealKeepsDealt(gs, keys);
      } else {
        PlayKeepsDealt(rules, gs, mv);
      }
    }
  }
}
