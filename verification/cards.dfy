/** Playing cards and where they are (keezen/card.py): the stock, one hand
    per seat and the pile of played cards. The source mutates three Python
    lists in place; here every operation returns the new `CardState`, and a
    call that would raise returns `Err`. */
module Cards {
  import opened Common

  /** `Suit`, with the enum values of card.py. */
  datatype Suit = Diamonds | Hearts | Clubs | Spades

  function SuitValue(s: Suit): (r: nat)
    ensures r < 4
  {
    match s
    case Diamonds => 0
    case Hearts => 1
    case Clubs => 2
    case Spades => 3
  }

  /** `CardValue`; `Rank` is the enum's `value`, which the action strings
      print. */
  datatype CardValue = Ace | Two | Three | Four | Five | Six | Seven | Eight | Nine | Ten | Jack | Queen | King

  function Rank(v: CardValue): (r: nat)
    ensures 1 <= r <= 13
  {
    match v
    case Ace => 1
    case Two => 2
    case Three => 3
    case Four => 4
    case Five => 5
    case Six => 6
    case Seven => 7
    case Eight => 8
    case Nine => 9
    case Ten => 10
    case Jack => 11
    case Queen => 12
    case King => 13
  }

  /** The value with a given rank: the inverse of `Rank`. */
  function ValueOfRank(n: nat): (r: Option<CardValue>)
    ensures r.Some? <==> 1 <= n <= 13
    ensures r.Some? ==> Rank(r.value) == n
  {
    if n == 1 then Some(Ace) else if n == 2 then Some(Two) else if n == 3 then Some(Three)
    else if n == 4 then Some(Four) else if n == 5 then Some(Five) else if n == 6 then Some(Six)
    else if n == 7 then Some(Seven) else if n == 8 then Some(Eight) else if n == 9 then Some(Nine)
    else if n == 10 then Some(Ten) else if n == 11 then Some(Jack) else if n == 12 then Some(Queen)
    else if n == 13 then Some(King) else None
  }

  /** Ranks tell values apart. */
  lemma RankRoundTrip(v: CardValue)
    ensures ValueOfRank(Rank(v)) == Some(v)
  {
    match v
    case Ace =>
    case Two =>
    case Three =>
    case Four =>
    case Five =>
    case Six =>
    case Seven =>
    case Eight =>
    case Nine =>
    case Ten =>
    case Jack =>
    case Queen =>
    case King =>
  }

  /** `Card`: Python compares cards by object identity; the id makes the
      52 cards of a deck distinct values here. */
  datatype Card = Card(suit: Suit, value: CardValue, id: nat)

  /** The stock, the hand of every seat (`player_cards`, in seat order) and
      the played pile. The top of the stock is its last element. */
  datatype CardState = CardState(stock: seq<Card>, hands: seq<seq<Card>>, played: seq<Card>)

  /** The `random.shuffle` calls of card.py, with the randomness made an
      input: each key picks, modulo the number of cards left, the next card
      of the result. */
  function Shuffle<T>(s: seq<T>, keys: seq<nat>): (r: seq<T>)
    ensures multiset(r) == multiset(s)
    ensures |r| == |s|
    decreases |s|
  {
    if |s| == 0 then []
    else
      var j := (if |keys| > 0 then keys[0] else 0) % |s|;
      var rest := s[..j] + s[j + 1..];
      assert s == s[..j] + [s[j]] + s[j + 1..];
      [s[j]] + Shuffle(rest, if |keys| > 0 then keys[1..] else [])
  }

  /** Every arrangement of the cards is some shuffle of them: the keys
      that produce t. With `Shuffle`'s own postcondition, the shuffles of s
      are exactly its permutations. */
  function ShuffleKeys<T(==)>(s: seq<T>, t: seq<T>): (keys: seq<nat>)
    requires multiset(t) == multiset(s)
    ensures Shuffle(s, keys) == t
    decreases |s|
  {
    PermutationHead(s, t);
    if |s| == 0 then []
    else
      var j := IndexOf(s, t[0]);
      PermutationTail(s, t, j);
      var ks := ShuffleKeys(s[..j] + s[j + 1..], t[1..]);
      ShuffleStep(s, j, ks);
      assert t == [t[0]] + t[1..];
      [j] + ks
  }

  /** Permutations have the same length, and the first element of one
      occurs in the other. */
  lemma PermutationHead<T>(s: seq<T>, t: seq<T>)
    requires multiset(t) == multiset(s)
    ensures |t| == |s|
    ensures |t| > 0 ==> t[0] in s
  {
    assert |multiset(t)| == |multiset(s)|;
    if |t| > 0 {
      assert t[0] in multiset(t);
    }
  }

  /** A key below the number of cards picks exactly that card. */
  lemma ShuffleStep<T>(s: seq<T>, j: nat, ks: seq<nat>)
    requires j < |s|
    ensures Shuffle(s, [j] + ks) == [s[j]] + Shuffle(s[..j] + s[j + 1..], ks)
  {
    assert ([j] + ks)[0] == j && ([j] + ks)[1..] == ks;
    SmallMod(j, |s|);
  }

  lemma SmallMod(j: nat, n: nat)
    requires j < n
    ensures j % n == j
  {
  }

  /** Taking the same element out of two permutations of each other
      leaves permutations of each other. */
  lemma PermutationTail<T>(s: seq<T>, t: seq<T>, j: nat)
    requires multiset(t) == multiset(s) && |t| > 0
    requires j < |s| && s[j] == t[0]
    ensures multiset(t[1..]) == multiset(s[..j] + s[j + 1..])
  {
    assert t == [t[0]] + t[1..];
    assert s == s[..j] + [s[j]] + s[j + 1..];
    var rest := s[..j] + s[j + 1..];
    assert multiset(t) == multiset{t[0]} + multiset(t[1..]);
    assert multiset(s) == multiset{t[0]} + multiset(rest);
    MultisetCancel(multiset(t[1..]), multiset(rest), multiset{t[0]});
  }

  /** Adding the same multiset to both sides of an equation. */
  lemma MultisetAdd<T>(a: multiset<T>, b: multiset<T>, c: multiset<T>, d: multiset<T>)
    requires b + c == d
    ensures a + b + c == a + d
  {
    forall x
      ensures (a + b + c)[x] == (a + d)[x]
    {
      assert (b + c)[x] == d[x];
    }
  }

  lemma MultisetCancel<T>(a: multiset<T>, b: multiset<T>, c: multiset<T>)
    requires c + a == c + b
    ensures a == b
  {
    forall x
      ensures a[x] == b[x]
    {
      assert (c + a)[x] == (c + b)[x];
    }
  }

  /** The first position of x in s. */
  function IndexOf<T(==)>(s: seq<T>, x: T): (j: nat)
    requires x in s
    ensures j < |s| && s[j] == x
    ensures forall i :: 0 <= i < j ==> s[i] != x
  {
    if s[0] == x then 0 else 1 + IndexOf(s[1..], x)
  }

  /** The hands one after the other, in seat order. */
  function Flatten(hands: seq<seq<Card>>): seq<Card>
  {
    if |hands| == 0 then [] else hands[0] + Flatten(hands[1..])
  }

  /** Every card of the state, wherever it is. */
  function Pool(st: CardState): multiset<Card>
  {
    multiset(st.stock) + multiset(Flatten(st.hands)) + multiset(st.played)
  }

  /** |stock| + the sizes of all hands + |played|. */
  function CardCount(st: CardState): nat
  {
    |st.stock| + |Flatten(st.hands)| + |st.played|
  }

  lemma CountIsPoolSize(st: CardState)
    ensures CardCount(st) == |Pool(st)|
  {
  }

  /** Replacing one hand changes the flattened hands by exactly that hand. */
  lemma {:induction false} FlattenUpdate(hands: seq<seq<Card>>, p: nat, h: seq<Card>)
    requires p < |hands|
    ensures multiset(Flatten(hands[p := h])) + multiset(hands[p]) == multiset(Flatten(hands)) + multiset(h)
    decreases |hands|
  {
    if p > 0 {
      var h1, h1' := hands[1..], hands[1..][p - 1 := h];
      FlattenUpdate(h1, p - 1, h);
      assert hands[p := h][1..] == h1';
      assert h1[p - 1] == hands[p];
      var a := multiset(hands[0]);
      var x, y := multiset(Flatten(h1')), multiset(Flatten(h1));
      assert multiset(Flatten(hands[p := h])) == a + x;
      assert multiset(Flatten(hands)) == a + y;
      forall e
        ensures (a + x + multiset(hands[p]))[e] == (a + y + multiset(h))[e]
      {
        assert (x + multiset(hands[p]))[e] == (y + multiset(h))[e];
      }
    } else {
      assert hands[p := h][1..] == hands[1..];
    }
  }

  /** Hands that are all empty flatten to nothing. */
  lemma {:induction false} FlattenEmpty(n: nat)
    ensures Flatten(EmptyHands(n)) == []
    decreases n
  {
    if n > 0 {
      assert EmptyHands(n)[1..] == EmptyHands(n - 1);
      FlattenEmpty(n - 1);
    }
  }

  function EmptyHands(n: nat): (r: seq<seq<Card>>)
    ensures |r| == n && forall p :: 0 <= p < n ==> r[p] == []
  {
    seq(n, _ => [])
  }

  /** `get_initial_card_state`: the shuffled deck as stock, an empty hand
      for each of the n players and no played cards. */
  function InitialCardState(cards: seq<Card>, n: nat, keys: seq<nat>): (r: CardState)
    ensures multiset(r.stock) == multiset(cards)
    ensures |r.hands| == n && forall p :: 0 <= p < n ==> r.hands[p] == []
    ensures r.played == []
    ensures Pool(r) == multiset(cards)
  {
    var r := CardState(Shuffle(cards, keys), EmptyHands(n), []);
    FlattenEmpty(n);
    r
  }

  /** `CardState.reset`: played cards and then every hand go back onto the
      stock, which is shuffled. */
  function ResetCards(st: CardState, keys: seq<nat>): (r: CardState)
    ensures multiset(r.stock) == Pool(st)
    ensures |r.hands| == |st.hands| && forall p :: 0 <= p < |r.hands| ==> r.hands[p] == []
    ensures r.played == []
    ensures Pool(r) == Pool(st)
  {
    var r := CardState(Shuffle(st.stock + st.played + Flatten(st.hands), keys), EmptyHands(|st.hands|), []);
    FlattenEmpty(|st.hands|);
    r
  }

  /** `deal_card`: the top (last) card of the stock goes to the end of the
      hand of seat p. An empty stock raises (`pop` from an empty list), as
      does a seat with no hand. */
  function DealCard(st: CardState, p: nat): (r: Result<(CardState, Card)>)
    ensures r.Err? <==> |st.stock| == 0 || p >= |st.hands|
    ensures r.Ok? ==>
              var (st', c) := r.value;
              && |st.stock| > 0 && c == st.stock[|st.stock| - 1]
              && st'.stock == st.stock[..|st.stock| - 1]
              && st'.hands == st.hands[p := st.hands[p] + [c]]
              && st'.played == st.played
  {
    if |st.stock| == 0 then Err("pop from empty list")
    else if p >= |st.hands| then Err("no hand for player")
    else
      var c := st.stock[|st.stock| - 1];
      Ok((CardState(st.stock[..|st.stock| - 1], st.hands[p := st.hands[p] + [c]], st.played), c))
  }

  /** Dealing moves a card and loses none. */
  lemma DealConserves(st: CardState, p: nat)
    requires DealCard(st, p).Ok?
    ensures Pool(DealCard(st, p).value.0) == Pool(st)
    ensures CardCount(DealCard(st, p).value.0) == CardCount(st)
  {
    var st' := DealCard(st, p).value.0;
    var c := DealCard(st, p).value.1;
    var hand := st.hands[p];
    assert st'.hands == st.hands[p := hand + [c]];
    FlattenUpdate(st.hands, p, hand + [c]);
    assert st.stock == st'.stock + [c];
    forall e
      ensures Pool(st')[e] == Pool(st)[e]
    {
      assert (multiset(Flatten(st'.hands)) + multiset(hand))[e] == (multiset(Flatten(st.hands)) + multiset(hand + [c]))[e];
      assert multiset(st.stock)[e] == multiset(st'.stock)[e] + multiset{c}[e];
      assert multiset(hand + [c])[e] == multiset(hand)[e] + multiset{c}[e];
    }
    CountIsPoolSize(st);
    CountIsPoolSize(st');
  }

  /** `list.remove`: drops the first occurrence of x. */
  function RemoveFirst<T(==)>(s: seq<T>, x: T): (r: seq<T>)
    requires x in s
    ensures multiset(r) == multiset(s) - multiset{x}
    ensures |r| == |s| - 1
  {
    var j := IndexOf(s, x);
    assert s == s[..j] + [x] + s[j + 1..];
    s[..j] + s[j + 1..]
  }

  /** `play_cards`: the cards go onto the played pile; a single card leaves
      the hand (raising if it is not there), several cards empty the hand
      whatever they are. */
  function PlayCards(st: CardState, p: nat, cards: seq<Card>): (r: Result<CardState>)
    ensures r.Err? <==> p >= |st.hands| || (|cards| == 1 && cards[0] !in st.hands[p])
    ensures r.Ok? ==> r.value.stock == st.stock && r.value.played == st.played + cards
    ensures r.Ok? && |cards| == 1 ==>
              r.value.hands == st.hands[p := RemoveFirst(st.hands[p], cards[0])]
    ensures r.Ok? && |cards| != 1 ==> r.value.hands == st.hands[p := []]
  {
    if p >= |st.hands| then Err("no hand for player")
    else if |cards| == 1 then
      if cards[0] in st.hands[p] then
        Ok(CardState(st.stock, st.hands[p := RemoveFirst(st.hands[p], cards[0])], st.played + cards))
      else Err("list.remove(x): x not in list")
    else Ok(CardState(st.stock, st.hands[p := []], st.played + cards))
  }

  /** What a play does to the pool: the old hand leaves it, the new hand
      and the cards played enter it. */
  lemma PlayShift(st: CardState, st': CardState, p: nat, hand': seq<Card>, cards: seq<Card>)
    requires p < |st.hands|
    requires st'.stock == st.stock && st'.played == st.played + cards
    requires st'.hands == st.hands[p := hand']
    ensures Pool(st') + multiset(st.hands[p]) == Pool(st) + (multiset(hand') + multiset(cards))
  {
    FlattenUpdate(st.hands, p, hand');
    var f, f' := multiset(Flatten(st.hands)), multiset(Flatten(st'.hands));
    forall e
      ensures (Pool(st') + multiset(st.hands[p]))[e] == (Pool(st) + (multiset(hand') + multiset(cards)))[e]
    {
      assert (f' + multiset(st.hands[p]))[e] == (f + multiset(hand'))[e];
      assert multiset(st'.played)[e] == multiset(st.played)[e] + multiset(cards)[e];
    }
  }

  /** Playing one card of the hand conserves the cards; throwing several
      conserves them exactly when they are the whole hand, as the
      THROW_CARDS move passes it. */
  lemma PlayConserves(st: CardState, p: nat, cards: seq<Card>)
    requires PlayCards(st, p, cards).Ok?
    ensures |cards| == 1 ==> Pool(PlayCards(st, p, cards).value) == Pool(st)
    ensures |cards| != 1 ==>
              (Pool(PlayCards(st, p, cards).value) == Pool(st) <==> multiset(cards) == multiset(st.hands[p]))
  {
    var st' := PlayCards(st, p, cards).value;
    var hand, hand' := st.hands[p], st'.hands[p];
    PlayShift(st, st', p, hand', cards);
    if |cards| == 1 {
      assert multiset(cards) == multiset{cards[0]};
      assert multiset(hand') + multiset(cards) == multiset(hand);
    } else {
      assert multiset(hand') + multiset(cards) == multiset(cards);
    }
    Balance(Pool(st'), Pool(st), multiset(hand), multiset(hand') + multiset(cards));
  }

  /** a + h == b + x: the pools a and b agree exactly when h and x do. */
  lemma Balance<T>(a: multiset<T>, b: multiset<T>, h: multiset<T>, x: multiset<T>)
    requires a + h == b + x
    ensures a == b <==> h == x
  {
    if h == x {
      forall e
        ensures a[e] == b[e]
      {
        assert (a + h)[e] == (b + x)[e];
      }
    }
    if a == b {
      forall e
        ensures h[e] == x[e]
      {
        assert (a + h)[e] == (b + x)[e];
      }
    }
  }

  /** Resetting and then shuffling conserves the cards (with its
      postcondition) and is the only way cards reach the stock. */
  lemma ResetCount(st: CardState, keys: seq<nat>)
    ensures CardCount(ResetCards(st, keys)) == CardCount(st)
    ensures |ResetCards(st, keys).stock| == CardCount(st)
  {
    CountIsPoolSize(st);
    CountIsPoolSize(ResetCards(st, keys));
    FlattenEmpty(|st.hands|);
  }
}
