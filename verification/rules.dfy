/** The rules of a Keezen game (keezen/rules.py): the variant's settings,
    the deck and the table giving each card value its operations. */
module Rules {
  import opened Common
  import opened Cards

  /** `game_type`: the two variants the source knows, and any other name. */
  datatype Variant = Keez | KeezSimple | OtherVariant

  /** The instance settings of `Rules`. */
  datatype Rules = Rules(variant: Variant, switchColor: bool, finishMarbleNrs: nat)

  /** The class constants of `Rules`. */
  const RotateDealerEachRound := true
  const PlayerStart: nat := 1
  const CardsPerRound: seq<nat> := [5, 4, 4]

  /** `Rules.__init__`: switching to the teammate's colour and four
      marbles to finish, except in the simple variant. */
  function MakeRules(v: Variant): (r: Rules)
    ensures r.variant == v
    ensures r.switchColor <==> v != KeezSimple
    ensures r.finishMarbleNrs == (if v == KeezSimple then 2 else 4)
  {
    if v == KeezSimple then Rules(v, false, 2) else Rules(v, true, 4)
  }

  /** The order of the loops in `initialize_cards`. */
  const SuitOrder: seq<Suit> := [Clubs, Diamonds, Hearts, Spades]
  const ValueOrder: seq<CardValue> :=
    [Ace, King, Queen, Jack, Ten, Nine, Eight, Seven, Six, Five, Four, Three, Two]

  function SuitPos(s: Suit): (r: nat)
    ensures r < 4 && SuitOrder[r] == s
  {
    match s
    case Clubs => 0
    case Diamonds => 1
    case Hearts => 2
    case Spades => 3
  }

  function ValuePos(v: CardValue): (r: nat)
    ensures r < 13 && ValueOrder[r] == v
  {
    match v
    case Ace => 0
    case King => 1
    case Queen => 2
    case Jack => 3
    case Ten => 4
    case Nine => 5
    case Eight => 6
    case Seven => 7
    case Six => 8
    case Five => 9
    case Four => 10
    case Three => 11
    case Two => 12
  }

  /** Where `initialize_cards` puts the card of suit s and value v: the
      suits in blocks of thirteen. */
  function DeckIndex(s: Suit, v: CardValue): (i: nat)
    ensures i < 52
  {
    13 * SuitPos(s) + ValuePos(v)
  }

  /** `initialize_cards`: the 52-card deck with ids counting up from 0,
      and no cards for an unknown game type. */
  function InitializeCards(v: Variant): (r: seq<Card>)
    ensures v == OtherVariant ==> r == []
    ensures v != OtherVariant ==> |r| == 52
    ensures forall i :: 0 <= i < |r| ==> r[i].id == i
    // every suit and value occurs, at its place in the loops ...
    ensures v != OtherVariant ==> forall s, val :: r[DeckIndex(s, val)] == Card(s, val, DeckIndex(s, val))
    // ... and only there
    ensures forall i :: 0 <= i < |r| ==> i == DeckIndex(r[i].suit, r[i].value)
  {
    if v == OtherVariant then []
    else
      var r := seq(52, i requires 0 <= i < 52 => Card(SuitOrder[i / 13], ValueOrder[i % 13], i));
      DeckFacts(r);
      r
  }

  lemma DeckFacts(r: seq<Card>)
    requires r == seq(52, i requires 0 <= i < 52 => Card(SuitOrder[i / 13], ValueOrder[i % 13], i))
    ensures forall s, val :: r[DeckIndex(s, val)] == Card(s, val, DeckIndex(s, val))
    ensures forall i :: 0 <= i < 52 ==> i == DeckIndex(r[i].suit, r[i].value)
  {
    forall s, val
      ensures r[DeckIndex(s, val)] == Card(s, val, DeckIndex(s, val))
    {
      var i := DeckIndex(s, val);
      assert i / 13 == SuitPos(s) && i % 13 == ValuePos(val);
    }
    forall i | 0 <= i < 52
      ensures i == DeckIndex(r[i].suit, r[i].value)
    {
      SuitPosOrder(i / 13);
      ValuePosOrder(i % 13);
    }
  }

  lemma SuitPosOrder(k: nat)
    requires k < 4
    ensures SuitPos(SuitOrder[k]) == k
  {
  }

  lemma ValuePosOrder(k: nat)
    requires k < 13
    ensures ValuePos(ValueOrder[k]) == k
  {
  }

  /** The deck holds 52 distinct cards, each (suit, value) pair once. */
  lemma DeckDistinct(v: Variant, i: nat, j: nat)
    requires i < j < |InitializeCards(v)|
    ensures var r := InitializeCards(v);
            r[i].suit != r[j].suit || r[i].value != r[j].value
  {
  }

  /** The card operations of cardop.py, by kind: `CardOpRun(n)`,
      `CardOpStart`, `CardOpSwitchOneOwnMarble`, `CardOpSplitTwoMarbles`. */
  datatype CardOp = RunOp(n: int) | StartOp | SwitchOp | SplitOp

  /** `initialize_card_ops`, keyed by value (the source keys by card, but
      only the value decides). An unknown game type has no entries; it also
      has no cards, so no lookup ever happens. */
  function CardOpsOf(v: Variant, value: CardValue): (r: seq<CardOp>)
    ensures v == OtherVariant <==> r == []
    ensures forall k :: 0 <= k < |r| && r[k].RunOp? ==>
              r[k].n == Rank(value) || (value == Four && r[k].n == -4)
  {
    if v == OtherVariant then []
    else
      match value
      case Ace => [RunOp(1), StartOp]
      case Two => [RunOp(2)]
      case Three => [RunOp(3)]
      case Four => [RunOp(-4)]
      case Five => [RunOp(5)]
      case Six => [RunOp(6)]
      case Seven => if v == Keez then [SplitOp] else [RunOp(7)]
      case Eight => [RunOp(8)]
      case Nine => [RunOp(9)]
      case Ten => [RunOp(10)]
      case Jack => [SwitchOp]
      case Queen => [RunOp(12)]
      case King => [StartOp]
  }

  /** Which values start a marble, switch or split, stated by rank: the
      ace and the king start, the jack switches, only the Keez seven
      splits, and every value but the jack and the king runs. */
  lemma OpsByRank(v: Variant, value: CardValue)
    requires v != OtherVariant
    ensures StartOp in CardOpsOf(v, value) <==> Rank(value) == 1 || Rank(value) == 13
    ensures SwitchOp in CardOpsOf(v, value) <==> Rank(value) == 11
    ensures SplitOp in CardOpsOf(v, value) <==> v == Keez && Rank(value) == 7
    ensures (exists k :: 0 <= k < |CardOpsOf(v, value)| && CardOpsOf(v, value)[k].RunOp?) <==>
              Rank(value) != 11 && Rank(value) != 13 && !(v == Keez && Rank(value) == 7)
  {
    var r := CardOpsOf(v, value);
    if Rank(value) != 11 && Rank(value) != 13 && !(v == Keez && Rank(value) == 7) {
      assert r[0].RunOp?;
    }
  }

  /** The simple variant differs from Keez in the seven alone. */
  lemma SimpleDiffersOnlyInSeven(value: CardValue)
    ensures value != Seven <==> CardOpsOf(KeezSimple, value) == CardOpsOf(Keez, value)
    ensures CardOpsOf(KeezSimple, Seven) == [RunOp(7)] && CardOpsOf(Keez, Seven) == [SplitOp]
  {
  }

  /** Three rounds of the [5, 4, 4] schedule for four players deal the
      whole deck: the stock runs out exactly at the end of a cycle. */
  lemma ScheduleUsesDeck(v: Variant)
    requires v != OtherVariant
    ensures 4 * Sum(CardsPerRound) == |InitializeCards(v)|
    ensures forall k :: 0 < k < |CardsPerRound| ==> 4 * Sum(CardsPerRound[..k]) < |InitializeCards(v)|
  {
    assert CardsPerRound[1..] == [4, 4] && CardsPerRound[2..] == [4];
    assert CardsPerRound[..1] == [5] && CardsPerRound[..2] == [5, 4];
    assert [5, 4][1..] == [4];
  }
}
