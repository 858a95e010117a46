/** Dealing a round (keezen/game.py `_deal_cards`): starting with the seat
    after the dealer, the top card of the stock goes to each seat in turn,
    round after round, until every seat has the round's number of cards. */
module KeezenDeal {
  import opened Common
  import opened Layout
  import opened Cards
  import opened Rules
  import opened Seats

  /** How many seats after p seat q comes, going round the table. */
  function Dist(p: nat, q: nat): (d: nat)
    requires p < NumPlayers && q < NumPlayers
    ensures d < NumPlayers
    ensures (p + d) % NumPlayers == q
  {
    (q + NumPlayers - p) % NumPlayers
  }

  /** How many of count cards, dealt round the table, reach the seat d
      places after the first one. */
  function Shares(count: nat, d: nat): nat
  {
    if d < count then (count - d - 1) / NumPlayers + 1 else 0
  }

  /** The inner loops of `_deal_cards`: count cards, one per seat in turn,
      from seat p on. The inner loop visits every seat once and so returns
      to the seat it started from, which makes the two loops one loop of
      count = rounds * seats deals. An empty stock raises. */
  function DealFrom(st: CardState, p: nat, count: nat): (r: Result<CardState>)
    requires |st.hands| == NumPlayers && p < NumPlayers
    ensures r.Ok? <==> count <= |st.stock|
    ensures r.Ok? ==> && r.value.stock == st.stock[..|st.stock| - count]
                      && r.value.played == st.played
                      && |r.value.hands| == NumPlayers
    decreases count
  {
    if count == 0 then
      assert st.stock[..|st.stock|] == st.stock;
      Ok(st)
    else
      match DealCard(st, p)
      case Err(e) => Err(e)
      case Ok((st1, _)) =>
        var r := DealFrom(st1, NextSeat(p, NumPlayers), count - 1);
        if r.Ok? then
          assert st1.stock[..|st1.stock| - (count - 1)] == st.stock[..|st.stock| - count];
          r
        else r
  }

  /** Hand h is hand with s more cards: the stock's cards d, d + 4,
      d + 8, ... counted from its top. */
  ghost predicate Received(h: seq<Card>, hand: seq<Card>, stock: seq<Card>, d: nat, s: nat)
  {
    && |h| == |hand| + s
    && h[..|hand|] == hand
    && (s == 0 || d + NumPlayers * (s - 1) < |stock|)
    && forall j :: 0 <= j < s ==> h[|hand| + j] == stock[|stock| - 1 - (d + NumPlayers * j)]
  }

  /** Round-robin dealing, card by card: seat q, Dist(p, q) places after
      the first, keeps its hand and receives every fourth card from the
      top of the stock on, starting with the card Dist(p, q) down. */
  lemma {:induction false} DealFromSeat(st: CardState, p: nat, count: nat, q: nat)
    requires |st.hands| == NumPlayers && p < NumPlayers && q < NumPlayers
    requires count <= |st.stock|
    ensures Received(DealFrom(st, p, count).value.hands[q], st.hands[q], st.stock, Dist(p, q), Shares(count, Dist(p, q)))
    decreases count
  {
    if count == 0 {
      assert st.hands[q][..|st.hands[q]|] == st.hands[q];
    } else {
      var st1 := DealCard(st, p).value.0;
      DealFromSeat(st1, NextSeat(p, NumPlayers), count - 1, q);
      if q == p {
        FirstSeatStep(st, p, count);
      } else {
        LaterSeatStep(st, p, count, q);
      }
    }
  }

  /** The step of `DealFromSeat` for the seat dealt to first. */
  lemma FirstSeatStep(st: CardState, p: nat, count: nat)
    requires |st.hands| == NumPlayers && p < NumPlayers
    requires 0 < count <= |st.stock|
    requires var st1, p1 := DealCard(st, p).value.0, NextSeat(p, NumPlayers);
             Received(DealFrom(st1, p1, count - 1).value.hands[p], st1.hands[p], st1.stock, Dist(p1, p), Shares(count - 1, Dist(p1, p)))
    ensures Received(DealFrom(st, p, count).value.hands[p], st.hands[p], st.stock, Dist(p, p), Shares(count, Dist(p, p)))
  {
    var (st1, c) := DealCard(st, p).value;
    var p1 := NextSeat(p, NumPlayers);
    DealStepShares(p, p, count);
    DealFromUnroll(st, p, count);
    ReceivedFirst(DealFrom(st1, p1, count - 1).value.hands[p], st.hands[p], c, st.stock, Shares(count - 1, Dist(p1, p)));
  }

  /** The step of `DealFromSeat` for every other seat. */
  lemma LaterSeatStep(st: CardState, p: nat, count: nat, q: nat)
    requires |st.hands| == NumPlayers && p < NumPlayers && q < NumPlayers && q != p
    requires 0 < count <= |st.stock|
    requires var st1, p1 := DealCard(st, p).value.0, NextSeat(p, NumPlayers);
             Received(DealFrom(st1, p1, count - 1).value.hands[q], st1.hands[q], st1.stock, Dist(p1, q), Shares(count - 1, Dist(p1, q)))
    ensures Received(DealFrom(st, p, count).value.hands[q], st.hands[q], st.stock, Dist(p, q), Shares(count, Dist(p, q)))
  {
    var st1 := DealCard(st, p).value.0;
    var p1 := NextSeat(p, NumPlayers);
    DealStepShares(p, q, count);
    DealFromUnroll(st, p, count);
    DealCardOthers(st, p, q);
    ReceivedLater(DealFrom(st1, p1, count - 1).value.hands[q], st.hands[q], st.stock, Dist(p, q), Shares(count, Dist(p, q)),
                  st1.hands[q], st1.stock, Dist(p1, q), Shares(count - 1, Dist(p1, q)));
  }

  /** Dealing a card to p leaves every other hand as it was and takes the
      top card off the stock. */
  lemma DealCardOthers(st: CardState, p: nat, q: nat)
    requires |st.hands| == NumPlayers && p < NumPlayers && q < NumPlayers && q != p && |st.stock| > 0
    ensures DealCard(st, p).value.0.hands[q] == st.hands[q]
    ensures DealCard(st, p).value.0.stock == st.stock[..|st.stock| - 1]
  {
  }

  lemma DealFromUnroll(st: CardState, p: nat, count: nat)
    requires |st.hands| == NumPlayers && p < NumPlayers
    requires 0 < count <= |st.stock|
    ensures DealFrom(st, p, count) == DealFrom(DealCard(st, p).value.0, NextSeat(p, NumPlayers), count - 1)
  {
  }

  /** The seat dealt to first gets the top card and then every fourth
      card after it. */
  lemma ReceivedFirst(h: seq<Card>, hand: seq<Card>, c: Card, stock: seq<Card>, s1: nat)
    requires |stock| > 0 && c == stock[|stock| - 1]
    requires Received(h, hand + [c], stock[..|stock| - 1], NumPlayers - 1, s1)
    ensures Received(h, hand, stock, 0, s1 + 1)
  {
    var n := |hand|;
    var stock1 := stock[..|stock| - 1];
    assert h[..n] == h[..n + 1][..n];
    forall j | 0 <= j < s1 + 1
      ensures h[n + j] == stock[|stock| - 1 - NumPlayers * j]
    {
      if j == 0 {
        assert h[n] == h[..n + 1][n];
      } else {
        assert h[n + 1 + (j - 1)] == stock1[|stock1| - 1 - (NumPlayers - 1 + NumPlayers * (j - 1))];
      }
    }
  }

  /** Every other seat's cards come one card further down the stock. */
  lemma ReceivedLater(h: seq<Card>, hand: seq<Card>, stock: seq<Card>, d: nat, s: nat,
                      hand1: seq<Card>, stock1: seq<Card>, d1: nat, s1: nat)
    requires |stock| > 0 && d > 0
    requires hand1 == hand && stock1 == stock[..|stock| - 1] && d1 == d - 1 && s1 == s
    requires Received(h, hand1, stock1, d1, s1)
    ensures Received(h, hand, stock, d, s)
  {
  }

  /** Dealing one card to p and the rest from the next seat on. */
  lemma DealStepShares(p: nat, q: nat, count: nat)
    requires p < NumPlayers && q < NumPlayers && count > 0
    ensures var p1 := NextSeat(p, NumPlayers);
            && Dist(p1, q) == (if q == p then NumPlayers - 1 else Dist(p, q) - 1)
            && Shares(count, Dist(p, q)) == Shares(count - 1, Dist(p1, q)) + (if q == p then 1 else 0)
  {
  }

  /** Dealing moves cards from the stock into the hands and loses none. */
  lemma {:induction false} DealFromConserves(st: CardState, p: nat, count: nat)
    requires |st.hands| == NumPlayers && p < NumPlayers
    requires count <= |st.stock|
    ensures Pool(DealFrom(st, p, count).value) == Pool(st)
    decreases count
  {
    if count > 0 {
      var (st1, c) := DealCard(st, p).value;
      var p1 := NextSeat(p, NumPlayers);
      DealConserves(st, p);
      var r1 := DealFrom(st1, p1, count - 1);
      assert r1 == DealFrom(st, p, count);
      DealFromConserves(st1, p1, count - 1);
    }
  }

  /** `_deal_cards`: the round's number of cards from the schedule, dealt
      to every seat from the one after the dealer on. */
  function DealCards(dealer: nat, st: CardState, round: nat): (r: Result<CardState>)
    requires |st.hands| == NumPlayers && dealer < NumPlayers
    ensures r.Ok? <==> NumPlayers * CardsPerRound[round % |CardsPerRound|] <= |st.stock|
    ensures r.Ok? ==> |r.value.stock| == |st.stock| - NumPlayers * CardsPerRound[round % |CardsPerRound|]
  {
    DealFrom(st, NextSeat(dealer, NumPlayers), NumPlayers * CardsPerRound[round % |CardsPerRound|])
  }

  /** Every seat receives exactly the round's number of cards, on top of
      the hand it had, and the seat after the dealer gets the top card. */
  lemma DealCardsShares(dealer: nat, st: CardState, round: nat)
    requires |st.hands| == NumPlayers && dealer < NumPlayers
    requires DealCards(dealer, st, round).Ok?
    ensures var h' := DealCards(dealer, st, round).value.hands;
            var m := CardsPerRound[round % |CardsPerRound|];
            && (forall q :: 0 <= q < NumPlayers ==>
                  |h'[q]| == |st.hands[q]| + m && h'[q][..|st.hands[q]|] == st.hands[q])
            && (m > 0 ==> var q := NextSeat(dealer, NumPlayers);
                          h'[q][|st.hands[q]|] == st.stock[|st.stock| - 1])
    ensures Pool(DealCards(dealer, st, round).value) == Pool(st)
  {
    var p := NextSeat(dealer, NumPlayers);
    var m := CardsPerRound[round % |CardsPerRound|];
    DealFromConserves(st, p, NumPlayers * m);
    forall q | 0 <= q < NumPlayers
      ensures Shares(NumPlayers * m, Dist(p, q)) == m
      ensures var h' := DealCards(dealer, st, round).value.hands;
              |h'[q]| == |st.hands[q]| + m && h'[q][..|st.hands[q]|] == st.hands[q]
    {
      EvenShares(m, Dist(p, q));
      DealFromSeat(st, p, NumPlayers * m, q);
    }
    if m > 0 {
      DealFromSeat(st, p, NumPlayers * m, p);
      assert Dist(p, p) == 0;
      var h' := DealCards(dealer, st, round).value.hands;
      assert h'[p][|st.hands[p]| + 0] == st.stock[|st.stock| - 1 - (0 + NumPlayers * 0)];
    }
  }

  /** rounds * 4 cards dealt round the table give every seat rounds cards. */
  lemma EvenShares(m: nat, d: nat)
    requires d < NumPlayers
    ensures Shares(NumPlayers * m, d) == m
  {
    if m > 0 {
      assert (NumPlayers * m - d - 1) / NumPlayers == m - 1 by {
        assert NumPlayers * m - d - 1 == NumPlayers * (m - 1) + (NumPlayers - 1 - d);
      }
    }
  }
}
