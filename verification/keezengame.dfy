/** The Keezen game (keezen/game.py): which moves the player to move may
    make, and what a step does to the game state. The four players sit at
    seats 0..3 and play the colour of their seat until they switch to
    their team mate's; the teams are the standard ones, so a seat's team
    mate is `PartnerSeat`. */
module KeezenGame {
  import opened Common
  import opened Layout
  import opened BoardState
  import opened Cards
  import opened Rules
  import opened Moves
  import opened CardOps
  import opened Seats

  // ------------------------------------------------------- moves of a hand

  /** The kind of move each operation makes. */
  predicate KindFits(op: CardOp, k: MoveType)
  {
    && (op.RunOp? ==> k == RunMove) && (op.StartOp? ==> k == StartMove)
    && (op.SwitchOp? ==> k == SwitchMove) && (op.SplitOp? ==> k == SplitMove)
  }

  /** A move of the given player, made by playing card for operation op. */
  predicate MadeBy(op: CardOp, player: nat, card: Card, mv: Move)
  {
    KindFits(op, mv.kind) && mv.player == player && mv.cards == [card]
  }

  /** `card_op.get_moves(...)` for one operation of a card. */
  function OpMoves(op: CardOp, player: nat, pw: Color, card: Card, b: Board): (r: seq<Move>)
    ensures forall mv :: mv in r ==> MadeBy(op, player, card, mv)
  {
    match op
    case RunOp(n) => RunMadeBy(player, pw, card, n, b); RunMoves(player, pw, card, n, b)
    case StartOp => StartMadeBy(player, pw, card, b); StartMoves(player, pw, card, b)
    case SwitchOp => SwitchMadeBy(player, pw, card, b); SwitchMoves(player, pw, card, b)
    case SplitOp => SplitMadeBy(player, pw, card, b); SplitMoves(player, pw, card, b)
  }

  lemma RunMadeBy(player: nat, pw: Color, card: Card, n: int, b: Board)
    ensures forall mv :: mv in RunMoves(player, pw, card, n, b) ==> MadeBy(RunOp(n), player, card, mv)
  {
  }

  lemma StartMadeBy(player: nat, pw: Color, card: Card, b: Board)
    ensures forall mv :: mv in StartMoves(player, pw, card, b) ==> MadeBy(StartOp, player, card, mv)
  {
  }

  lemma SwitchMadeBy(player: nat, pw: Color, card: Card, b: Board)
    ensures forall mv :: mv in SwitchMoves(player, pw, card, b) ==> MadeBy(SwitchOp, player, card, mv)
  {
  }

  lemma SplitMadeBy(player: nat, pw: Color, card: Card, b: Board)
    ensures forall mv :: mv in SplitMoves(player, pw, card, b) ==> MadeBy(SplitOp, player, card, mv)
  {
  }

  /** `moves_for_card`: the moves of every operation of the card's value,
      in the order of the rules table. */
  function CardMoves(v: Variant, player: nat, pw: Color, card: Card, b: Board): (r: seq<Move>)
    ensures forall mv :: mv in r <==> exists op :: op in CardOpsOf(v, card.value) && mv in OpMoves(op, player, pw, card, b)
    ensures forall mv :: mv in r ==> mv.player == player && mv.cards == [card]
    ensures forall mv :: mv in r ==> mv.kind != ThrowCards && mv.kind != DealMove
  {
    var f := (op: CardOp) => OpMoves(op, player, pw, card, b);
    var r := FlatMap(f, CardOpsOf(v, card.value));
    CardMovesCollected(v, player, pw, card, b, f, r);
    r
  }

  lemma CardMovesCollected(v: Variant, player: nat, pw: Color, card: Card, b: Board,
                           f: CardOp -> seq<Move>, r: seq<Move>)
    requires forall op :: f(op) == OpMoves(op, player, pw, card, b)
    requires forall mv :: mv in r <==> exists op :: op in CardOpsOf(v, card.value) && mv in f(op)
    ensures forall mv :: mv in r <==> exists op :: op in CardOpsOf(v, card.value) && mv in OpMoves(op, player, pw, card, b)
    ensures forall mv :: mv in r ==> mv.player == player && mv.cards == [card]
    ensures forall mv :: mv in r ==> mv.kind != ThrowCards && mv.kind != DealMove
  {
    forall mv | mv in r
      ensures exists op :: op in CardOpsOf(v, card.value) && mv in OpMoves(op, player, pw, card, b)
      ensures mv.player == player && mv.cards == [card] && mv.kind != ThrowCards && mv.kind != DealMove
    {
      var op :| op in CardOpsOf(v, card.value) && mv in f(op);
      assert MadeBy(op, player, card, mv);
      NoFallbackFits(op, mv.kind);
    }
    forall mv, op | op in CardOpsOf(v, card.value) && mv in OpMoves(op, player, pw, card, b)
      ensures mv in r
    {
      assert mv in f(op);
    }
  }

  /** No operation makes a fallback move. */
  lemma NoFallbackFits(op: CardOp, k: MoveType)
    requires KindFits(op, k)
    ensures k != ThrowCards && k != DealMove
  {
  }

  /** r holds one card per value of hand, the first card of that value. */
  ghost predicate FirstOfEachValue(hand: seq<Card>, r: seq<Card>)
  {
    FromHand(hand, r) && ValuesDistinct(r) && CoversValues(hand, r) && Earliest(hand, r)
  }

  /** Only cards of the hand ... */
  ghost predicate FromHand(hand: seq<Card>, r: seq<Card>)
  {
    forall c :: c in r ==> c in hand
  }

  /** ... no value twice ... */
  ghost predicate ValuesDistinct(r: seq<Card>)
  {
    forall i, j :: 0 <= i < j < |r| ==> r[i].value != r[j].value
  }

  /** ... every value of the hand ... */
  ghost predicate CoversValues(hand: seq<Card>, r: seq<Card>)
  {
    forall c :: c in hand ==> exists k :: 0 <= k < |r| && r[k].value == c.value
  }

  /** ... and each of them stands in the hand with no card of its value
      before it. */
  ghost predicate Earliest(hand: seq<Card>, r: seq<Card>)
  {
    forall k :: 0 <= k < |r| ==> FirstAt(hand, r[k])
  }

  /** Card c stands in the hand with no card of its value before it. */
  ghost predicate FirstAt(hand: seq<Card>, c: Card)
  {
    exists i :: 0 <= i < |hand| && hand[i] == c && NoneBefore(hand, i, c.value)
  }

  /** No card of the hand before position i has value v. */
  ghost predicate NoneBefore(hand: seq<Card>, i: nat, v: CardValue)
  {
    forall j :: 0 <= j < i && j < |hand| ==> hand[j].value != v
  }

  /** `filtered_cards`: the cards of the hand whose value no earlier card
      of the hand has, in the order of the hand. */
  function Dedup(hand: seq<Card>): (r: seq<Card>)
    ensures FirstOfEachValue(hand, r)
    decreases |hand|
  {
    if |hand| == 0 then []
    else
      var front := hand[..|hand| - 1];
      var d := Dedup(front);
      var c := hand[|hand| - 1];
      assert hand == front + [c];
      if exists k :: 0 <= k < |d| && d[k].value == c.value then
        KeepsFromHand(front, c, d);
        KeepsCovers(front, c, d);
        KeepsEarliest(front, c, d);
        d
      else
        AddsFromHand(front, c, d);
        AddsDistinct(front, c, d);
        AddsCovers(front, c, d);
        AddsEarliest(front, c, d);
        d + [c]
  }

  // A card whose value is already taken adds nothing.

  lemma KeepsFromHand(front: seq<Card>, c: Card, d: seq<Card>)
    requires FromHand(front, d)
    ensures FromHand(front + [c], d)
  {
  }

  lemma KeepsCovers(front: seq<Card>, c: Card, d: seq<Card>)
    requires CoversValues(front, d)
    requires exists k :: 0 <= k < |d| && d[k].value == c.value
    ensures CoversValues(front + [c], d)
  {
    var hand := front + [c];
    forall x | x in hand
      ensures exists k :: 0 <= k < |d| && d[k].value == x.value
    {
      var i :| 0 <= i < |hand| && hand[i] == x;
      if i < |front| {
        assert front[i] == x;
        assert x in front;
      }
    }
  }

  lemma KeepsEarliest(front: seq<Card>, c: Card, d: seq<Card>)
    requires Earliest(front, d)
    ensures Earliest(front + [c], d)
  {
    var hand := front + [c];
    forall k | 0 <= k < |d|
      ensures FirstAt(hand, d[k])
    {
      var i :| 0 <= i < |front| && front[i] == d[k] && NoneBefore(front, i, d[k].value);
      assert hand[i] == d[k];
      assert forall j :: 0 <= j < i ==> hand[j] == front[j];
      assert NoneBefore(hand, i, d[k].value);
    }
  }

  // A card of a new value is added at the end.

  lemma AddsFromHand(front: seq<Card>, c: Card, d: seq<Card>)
    requires FromHand(front, d)
    ensures FromHand(front + [c], d + [c])
  {
  }

  lemma AddsDistinct(front: seq<Card>, c: Card, d: seq<Card>)
    requires ValuesDistinct(d)
    requires forall k :: 0 <= k < |d| ==> d[k].value != c.value
    ensures ValuesDistinct(d + [c])
  {
  }

  lemma AddsCovers(front: seq<Card>, c: Card, d: seq<Card>)
    requires CoversValues(front, d)
    ensures CoversValues(front + [c], d + [c])
  {
    var hand, r := front + [c], d + [c];
    forall x | x in hand
      ensures exists k :: 0 <= k < |r| && r[k].value == x.value
    {
      var i :| 0 <= i < |hand| && hand[i] == x;
      if i < |front| {
        assert front[i] == x;
        assert x in front;
        var k :| 0 <= k < |d| && d[k].value == x.value;
        assert r[k] == d[k];
      } else {
        assert r[|d|] == c;
      }
    }
  }

  lemma AddsEarliest(front: seq<Card>, c: Card, d: seq<Card>)
    requires CoversValues(front, d) && Earliest(front, d)
    requires forall k :: 0 <= k < |d| ==> d[k].value != c.value
    ensures Earliest(front + [c], d + [c])
  {
    var hand, r := front + [c], d + [c];
    forall k | 0 <= k < |r|
      ensures FirstAt(hand, r[k])
    {
      if k < |d| {
        var i :| 0 <= i < |front| && front[i] == d[k] && NoneBefore(front, i, d[k].value);
        assert hand[i] == r[k];
        assert forall j :: 0 <= j < i ==> hand[j] == front[j];
        assert NoneBefore(hand, i, r[k].value);
      } else {
        assert hand[|front|] == r[k] == c;
        forall j | 0 <= j < |front|
          ensures hand[j].value != c.value
        {
          assert hand[j] == front[j] && front[j] in front;
        }
        assert NoneBefore(hand, |front|, r[k].value);
      }
    }
  }

  /** All card-operation moves of a hand: `allowed_moves` before the
      fallbacks. */
  function HandMoves(v: Variant, player: nat, pw: Color, hand: seq<Card>, b: Board): (r: seq<Move>)
    ensures forall mv :: mv in r <==> exists c :: c in Dedup(hand) && mv in CardMoves(v, player, pw, c, b)
    ensures forall mv :: mv in r ==> mv.player == player && |mv.cards| == 1 && mv.cards[0] in hand
    ensures forall mv :: mv in r ==> mv.kind != ThrowCards && mv.kind != DealMove
  {
    var f := (c: Card) => CardMoves(v, player, pw, c, b);
    var r := FlatMap(f, Dedup(hand));
    HandMovesCollected(v, player, pw, hand, b, f, r);
    r
  }

  lemma HandMovesCollected(v: Variant, player: nat, pw: Color, hand: seq<Card>, b: Board,
                           f: Card -> seq<Move>, r: seq<Move>)
    requires forall c :: f(c) == CardMoves(v, player, pw, c, b)
    requires forall mv :: mv in r <==> exists c :: c in Dedup(hand) && mv in f(c)
    ensures forall mv :: mv in r <==> exists c :: c in Dedup(hand) && mv in CardMoves(v, player, pw, c, b)
    ensures forall mv :: mv in r ==> mv.player == player && |mv.cards| == 1 && mv.cards[0] in hand
    ensures forall mv :: mv in r ==> mv.kind != ThrowCards && mv.kind != DealMove
  {
    var d := Dedup(hand);
    forall mv | mv in r
      ensures exists c :: c in d && mv in CardMoves(v, player, pw, c, b)
      ensures mv.player == player && |mv.cards| == 1 && mv.cards[0] in hand
      ensures mv.kind != ThrowCards && mv.kind != DealMove
    {
      var c :| c in d && mv in f(c);
      assert mv.cards == [c];
    }
    forall mv, c | c in d && mv in CardMoves(v, player, pw, c, b)
      ensures mv in r
    {
      assert mv in f(c);
    }
  }

  // ------------------------------------------------------------ the state

  /** `GameState` as a value: the board, the cards, the colour each seat
      plays with, the dealer, the player to move and the two counters. */
  datatype GameState = GameState(board: Board, cards: CardState, playsWith: seq<Color>,
                                 dealer: nat, mover: nat, round: nat, moveNumber: nat)

  /** A state of four seats: one hand and one playing colour per seat, and
      dealer and mover among them. */
  predicate Seated(gs: GameState)
  {
    && |gs.cards.hands| == NumPlayers && |gs.playsWith| == NumPlayers
    && gs.dealer < NumPlayers && gs.mover < NumPlayers
  }

  /** `_is_round_over`: the hands hold no cards between them. */
  function IsRoundOver(gs: GameState): (r: bool)
    ensures r <==> forall p :: 0 <= p < |gs.cards.hands| ==> gs.cards.hands[p] == []
  {
    FlattenNil(gs.cards.hands);
    |Flatten(gs.cards.hands)| == 0
  }

  lemma {:induction false} FlattenNil(hands: seq<seq<Card>>)
    ensures Flatten(hands) == [] <==> forall p :: 0 <= p < |hands| ==> hands[p] == []
    decreases |hands|
  {
    if |hands| > 0 {
      FlattenNil(hands[1..]);
      assert forall p :: 1 <= p < |hands| ==> hands[p] == hands[1..][p - 1];
    }
  }

  /** `is_color_finished` with the variant's finishing count. */
  predicate Finished(rules: Rules, b: Board, c: Color)
  {
    IsColorFinished(Keezen, c, b, rules.finishMarbleNrs)
  }

  /** `is_over`: `None` while the game goes on, else the reward vector. The
      game ends when the mover's playing colour is finished and, when
      colours switch, the playing colour of the mover's team mate too; the
      mover, and with switching the team mate, win. */
  function IsOver(rules: Rules, gs: GameState): (r: Option<seq<nat>>)
    requires Seated(gs)
    ensures r.Some? <==> Finished(rules, gs.board, gs.playsWith[gs.mover]) &&
                         (rules.switchColor ==> Finished(rules, gs.board, gs.playsWith[PartnerSeat(gs.mover)]))
    ensures r.Some? ==> |r.value| == NumPlayers
    ensures r.Some? ==> forall i :: 0 <= i < NumPlayers ==>
              r.value[i] == (if i == gs.mover || (rules.switchColor && i == PartnerSeat(gs.mover)) then 1 else 0)
  {
    var me := gs.mover;
    if !Finished(rules, gs.board, gs.playsWith[me]) then None
    else if rules.switchColor then
      if Finished(rules, gs.board, gs.playsWith[PartnerSeat(me)]) then
        Some(seq(NumPlayers, i => if i == me || i == PartnerSeat(me) then 1 else 0))
      else None
    else Some(seq(NumPlayers, i => if i == me then 1 else 0))
  }

  /** The winners are a whole team when colours switch, else the mover
      alone. */
  lemma RewardTotal(rules: Rules, gs: GameState)
    requires Seated(gs) && IsOver(rules, gs).Some?
    ensures Sum(IsOver(rules, gs).value) == if rules.switchColor then 2 else 1
    ensures IsOver(rules, gs).value[gs.mover] == 1
  {
    var r := IsOver(rules, gs).value;
    assert Sum(r[3..]) == r[3] by { assert r[3..][1..] == []; }
    assert Sum(r[2..]) == r[2] + r[3] by { assert r[2..][1..] == r[3..]; }
    assert Sum(r[1..]) == r[1] + r[2] + r[3] by { assert r[1..][1..] == r[2..]; }
    assert Sum(r) == r[0] + r[1] + r[2] + r[3];
    var m := gs.mover;
    assert PartnerSeat(m) != m;
  }

  // -------------------------------------------------------- allowed moves

  /** `get_allowed_moves`: the moves of the mover's cards, one card per
      value; failing those, throwing the whole hand; with an empty hand at
      the end of a round of a game that goes on, the dealer's deal; else
      nothing. */
  function AllowedMoves(rules: Rules, gs: GameState): (r: seq<Move>)
    requires Seated(gs)
    // the card moves, every one of them
    ensures forall mv :: mv in r && mv.kind != ThrowCards && mv.kind != DealMove <==>
              exists c :: c in Dedup(gs.cards.hands[gs.mover]) &&
                mv in CardMoves(rules.variant, gs.mover, gs.playsWith[gs.mover], c, gs.board)
    // the fallbacks, exactly when there is no card move
    ensures (exists mv :: mv in r && mv.kind == ThrowCards) <==>
              HandMoves(rules.variant, gs.mover, gs.playsWith[gs.mover], gs.cards.hands[gs.mover], gs.board) == [] &&
              gs.cards.hands[gs.mover] != []
    ensures (exists mv :: mv in r && mv.kind == ThrowCards) ==>
              r == [Move(ThrowCards, gs.mover, gs.cards.hands[gs.mover], [])]
    ensures (exists mv :: mv in r && mv.kind == DealMove) <==>
              HandMoves(rules.variant, gs.mover, gs.playsWith[gs.mover], gs.cards.hands[gs.mover], gs.board) == [] &&
              gs.cards.hands[gs.mover] == [] && IsRoundOver(gs) && IsOver(rules, gs).None?
    ensures (exists mv :: mv in r && mv.kind == DealMove) ==> r == [Move(DealMove, gs.dealer, [], [])]
    // every move but the deal is the mover's, with cards of the mover's hand
    ensures forall mv :: mv in r && mv.kind != DealMove ==>
              mv.player == gs.mover && (|mv.cards| == 1 ==> mv.cards[0] in gs.cards.hands[gs.mover])
  {
    var me := gs.mover;
    var hand := gs.cards.hands[me];
    var moves := HandMoves(rules.variant, me, gs.playsWith[me], hand, gs.board);
    if moves != [] then moves
    else if hand != [] then [Move(ThrowCards, me, hand, [])]
    else if IsRoundOver(gs) && IsOver(rules, gs).None? then [Move(DealMove, gs.dealer, [], [])]
    else []
  }
}
