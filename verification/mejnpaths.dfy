/** mejn paths (mejn/board.py `get_path_for_color` and
    `get_path_for_marble`): forward only, over the 18-field blocks. */
module MejnPaths {
  import opened Common
  import opened Layout
  import opened BoardState
  import opened Paths

  /** `Board.get_path_for_color`. The source loops |n| times over next
      fields only, so a negative n also walks forwards. */
  function PathForColor(c: Color, cur: Field, n: int, b: Board, short: bool): (r: seq<Field>)
    requires IsField(Mejn, cur)
    ensures |r| <= Abs(n)
    ensures !short ==> r == [] || |r| == Abs(n)
    ensures forall i :: 0 <= i < |r| ==> r[i] in NextFields(Mejn, At(cur, r, i))
    // never a foreign home field
    ensures forall x :: x in r && Kind(Mejn, x) == Home ==> ColorOf(Mejn, x) == c
    // never a home field already holding a marble of the walker's colour
    ensures forall x :: x in r && Kind(Mejn, x) == Home ==> !(x in b && b[x].color == c)
    // never the walker's own start field
    ensures StartField(Mejn, c) !in r
    // a path of all |n| hops the rules allow, when there is one, is the one returned
    ensures forall p :: IsChain(HopOf(MejnWalker(c, b)), cur, p) && |p| == Abs(n) ==> r == p
  {
    var w := MejnWalker(c, b);
    var r := PathFrom(w, cur, n, short);
    MejnChainRules(w, cur, r);
    r
  }

  /** The rules one allowed mejn hop obeys. */
  lemma MejnHopRules(w: Walker, prev: Field, x: Field)
    requires w.MejnWalker? && Allowed(w, prev, x)
    ensures x in NextFields(Mejn, prev)
    ensures Kind(Mejn, x) == Home ==> ColorOf(Mejn, x) == w.color && !(x in w.board && w.board[x].color == w.color)
    ensures x != StartField(Mejn, w.color)
  {
    assert MejnAllowed(w.color, prev, x, w.board);
  }

  lemma MejnChainRules(w: Walker, cur: Field, r: seq<Field>)
    requires w.MejnWalker?
    requires IsChain(HopOf(w), cur, r)
    ensures forall i :: 0 <= i < |r| ==> r[i] in NextFields(Mejn, At(cur, r, i))
    ensures forall x :: x in r && Kind(Mejn, x) == Home ==>
              ColorOf(Mejn, x) == w.color && !(x in w.board && w.board[x].color == w.color)
    ensures StartField(Mejn, w.color) !in r
  {
    forall i | 0 <= i < |r|
      ensures r[i] in NextFields(Mejn, At(cur, r, i))
      ensures Kind(Mejn, r[i]) == Home ==>
                ColorOf(Mejn, r[i]) == w.color && !(r[i] in w.board && w.board[r[i]].color == w.color)
      ensures r[i] != StartField(Mejn, w.color)
    {
      assert HopOf(w)(At(cur, r, i)) == Some(r[i]);
      MejnHopRules(w, At(cur, r, i), r[i]);
    }
  }

  /** `Board.get_path_for_marble`. */
  function PathForMarble(m: Marble, n: int, b: Board, short: bool): (r: seq<Field>)
    ensures forall f :: FieldOf(b, m) == Some(f) && IsField(Mejn, f) ==>
              r == PathForColor(m.color, f, n, b, short)
    ensures forall f, p ::
              FieldOf(b, m) == Some(f) && IsField(Mejn, f) &&
              IsChain(HopOf(MejnWalker(m.color, b)), f, p) && |p| == Abs(n)
              ==> r == p
    ensures OnKind(Mejn, b, m, Wait) ==> r == []
    ensures r != [] ==> FieldOf(b, m).Some? && IsField(Mejn, FieldOf(b, m).value)
    ensures |r| <= Abs(n) && (!short ==> r == [] || |r| == Abs(n))
  {
    match FieldOf(b, m)
    case Some(f) =>
      if IsField(Mejn, f) then
        var r := PathForColor(m.color, f, n, b, short);
        if Kind(Mejn, f) == Wait then
          AdjacencyShape(Mejn, f);
          r
        else r
      else []
    case None => []
  }

  /** A forward hop along a block's track, to a neutral field. */
  lemma TrackHop(c: Color, b: Board, f: Field)
    requires IsField(Mejn, f) && 5 <= Index(Mejn, f) <= 12
    ensures Hop(MejnWalker(c, b), f) == Some(f + 1)
  {
    FieldParts(Mejn, f);
    Decompose(Mejn, Block(Mejn, f), Index(Mejn, f) + 1);
  }

  /** Six forward hops from 41, for any hop function taking them. */
  lemma SixFrom41(h: Field -> Option<Field>)
    requires h(41) == Some(42) && h(42) == Some(43) && h(43) == Some(44)
    requires h(44) == Some(45) && h(45) == Some(46) && h(46) == Some(47)
    ensures Walk(h, 41, 6) == [42, 43, 44, 45, 46, 47]
  {
    var p := [42, 43, 44, 45, 46, 47];
    assert IsChain(h, 41, p) by {
      forall i | 0 <= i < 6
        ensures h(At(41, p, i)) == Some(p[i])
      {
        assert At(41, p, i) == 41 + i && p[i] == 42 + i;
      }
    }
    ChainIsWalk(h, 41, p, 6);
  }

  lemma TwoFrom40(h: Field -> Option<Field>)
    requires h(40) == Some(41) && h(41) == Some(42)
    ensures Walk(h, 40, 2) == [41, 42]
  {
    var q := [41, 42];
    assert At(40, q, 0) == 40 && At(40, q, 1) == 41;
    ChainIsWalk(h, 40, q, 2);
  }

  lemma TrackWalks(b: Board)
    ensures Walk(HopOf(MejnWalker(2, b)), 41, 6) == [42, 43, 44, 45, 46, 47]
    ensures Walk(HopOf(MejnWalker(0, b)), 40, 2) == [41, 42]
  {
    TrackHop(2, b, 41);
    TrackHop(2, b, 42);
    TrackHop(2, b, 43);
    TrackHop(2, b, 44);
    TrackHop(2, b, 45);
    TrackHop(2, b, 46);
    SixFrom41(HopOf(MejnWalker(2, b)));
    JunctionHop(0, b);
    TrackHop(0, b, 41);
    TwoFrom40(HopOf(MejnWalker(0, b)));
  }

  /** From blue's junction a foreign marble runs on to blue's start. */
  lemma JunctionHop(c: Color, b: Board)
    requires c != 2
    ensures Hop(MejnWalker(c, b), 40) == Some(41)
  {
    Decompose(Mejn, 2, 4);
    Decompose(Mejn, 2, 5);
  }

  /** The paths test_board.py expects: a blue marble on its start field
      running 6, and a green marble in front of blue's start field running
      2, whoever stands on those fields. */
  lemma TrackPaths(b: Board)
    ensures PathForColor(2, 41, 6, b, false) == [42, 43, 44, 45, 46, 47]
    ensures PathForColor(0, 40, 2, b, false) == [41, 42]
  {
    TrackWalks(b);
  }

  /** Blue's home spur: 31 turns into 40, then down to 36, the dead end. */
  lemma HomeHop(b: Board, f: Field)
    requires forall f :: 36 <= f <= 39 && f in b ==> b[f].color != 2
    requires 37 <= f <= 40
    ensures Hop(MejnWalker(2, b), f) == Some(f - 1)
  {
    Decompose(Mejn, 2, f - 36);
    Decompose(Mejn, 2, f - 37);
  }

  lemma HomeEnds(b: Board)
    requires forall f :: 36 <= f <= 39 && f in b ==> b[f].color != 2
    ensures Hop(MejnWalker(2, b), 31) == Some(40)
    ensures Hop(MejnWalker(2, b), 36) == None
  {
    Decompose(Mejn, 1, 13);
    Decompose(Mejn, 2, 4);
    Decompose(Mejn, 2, 0);
  }

  /** A chain 31, 40, 39, 38, 37, 36 that stops at 36. */
  lemma HomeRun(h: Field -> Option<Field>)
    requires h(31) == Some(40) && h(40) == Some(39) && h(39) == Some(38)
    requires h(38) == Some(37) && h(37) == Some(36) && h(36) == None
    ensures Walk(h, 31, 5) == [40, 39, 38, 37, 36]
    ensures Walk(h, 40, 5) == [39, 38, 37, 36]
  {
    var p := [40, 39, 38, 37, 36];
    assert IsChain(h, 31, p) by {
      forall i | 0 <= i < 5
        ensures h(At(31, p, i)) == Some(p[i])
      {
        if i > 0 {
          assert At(31, p, i) == 41 - i && p[i] == 40 - i;
        }
      }
    }
    ChainIsWalk(h, 31, p, 5);
    var q := p[1..];
    assert IsChain(h, 40, q) by {
      forall i | 0 <= i < 4
        ensures h(At(40, q, i)) == Some(q[i])
      {
        assert At(40, q, i) == 40 - i && q[i] == 39 - i;
      }
    }
    assert At(40, q, 4) == 36;
    ChainIsWalk(h, 40, q, 5);
  }

  lemma HomeWalks(b: Board)
    requires forall f :: 36 <= f <= 39 && f in b ==> b[f].color != 2
    ensures Walk(HopOf(MejnWalker(2, b)), 31, 5) == [40, 39, 38, 37, 36]
    ensures Walk(HopOf(MejnWalker(2, b)), 40, 5) == [39, 38, 37, 36]
  {
    HomeEnds(b);
    HomeHop(b, 40);
    HomeHop(b, 39);
    HomeHop(b, 38);
    HomeHop(b, 37);
    HomeRun(HopOf(MejnWalker(2, b)));
  }

  /** A blue marble coming round from field 31 turns into its home spur
      instead of its start field and reaches the last home field 36 in 5;
      from 40 it runs out of home fields after 4, so 5 gives no path. Both
      hold when no blue marble is already in blue's home. */
  lemma HomeRunPaths(b: Board)
    requires forall f :: 36 <= f <= 39 && f in b ==> b[f].color != 2
    ensures PathForColor(2, 31, 5, b, false) == [40, 39, 38, 37, 36]
    ensures PathForColor(2, 40, 5, b, false) == []
  {
    HomeWalks(b);
  }

  // ---------------------------------------------------------- the route

  /** A field's place on the route of colour c: c's own start field is 0,
      the track runs on through the three following blocks (ten fields
      each, junction included) to c's own junction at 39, and c's home
      spur follows, entrance 40 to dead end 43. Foreign home fields and
      the wait pens are off the route (-1). */
  function Route(c: Color, f: Field): (r: int)
    requires IsField(Mejn, f)
    ensures -1 <= r < 44
    ensures r == -1 <==> Kind(Mejn, f) == Wait || (Kind(Mejn, f) == Home && ColorOf(Mejn, f) != c)
  {
    FieldParts(Mejn, f);
    var k, i := Block(Mejn, f), Index(Mejn, f);
    var d := if k >= c then k - c else k - c + NumPlayers;
    if i < 4 then (if k == c then 43 - i else -1)
    else if i >= WaitBase(Mejn) then -1
    else if i == 4 then (if d == 0 then 39 else (d - 1) * 10 + 9)
    else d * 10 + i - 5
  }

  /** Every hop a mejn walk of colour c may take (never into a foreign
      home, never onto c's own start field) goes one place further along
      c's route; a field off the route has no such hop. */
  lemma RouteHop(c: Color, x: Field, y: Field)
    requires IsField(Mejn, x) && y in NextFields(Mejn, x)
    requires Kind(Mejn, y) == Home ==> ColorOf(Mejn, y) == c
    requires y != StartField(Mejn, c)
    ensures IsField(Mejn, y)
    ensures Route(c, x) >= 0 && Route(c, y) == Route(c, x) + 1
  {
    NeighboursAreFields(Mejn, x);
    FieldParts(Mejn, x);
    var i := Index(Mejn, x);
    if i < 4 {
      RouteHopHome(c, x, y);
    } else if i == 4 {
      RouteHopJunction(c, x, y);
    } else if i == LastTrack(Mejn) {
      RouteHopLast(c, x, y);
    } else {
      AdjacencyShape(Mejn, x);
      RouteHopTrack(c, x, y);
    }
  }

  /** Inside c's home spur, one field deeper. */
  lemma RouteHopHome(c: Color, x: Field, y: Field)
    requires IsField(Mejn, x) && Index(Mejn, x) < 4 && y in NextFields(Mejn, x)
    requires Kind(Mejn, y) == Home ==> ColorOf(Mejn, y) == c
    ensures IsField(Mejn, y) && Route(c, x) >= 0 && Route(c, y) == Route(c, x) + 1
  {
    FieldParts(Mejn, x);
    var k, i := Block(Mejn, x), Index(Mejn, x);
    assert 1 <= i && y == x - 1;
    Decompose(Mejn, k, i - 1);
  }

  /** From a junction onto a foreign start field, or into c's own home. */
  lemma RouteHopJunction(c: Color, x: Field, y: Field)
    requires IsField(Mejn, x) && Index(Mejn, x) == 4 && y in NextFields(Mejn, x)
    requires Kind(Mejn, y) == Home ==> ColorOf(Mejn, y) == c
    requires y != StartField(Mejn, c)
    ensures IsField(Mejn, y) && Route(c, x) >= 0 && Route(c, y) == Route(c, x) + 1
  {
    AdjacencyShape(Mejn, x);
    FieldParts(Mejn, x);
    var k := Block(Mejn, x);
    if y == x + 1 {
      Decompose(Mejn, k, 5);
      assert k != c;
    } else {
      Decompose(Mejn, k, 3);
    }
  }

  /** From the last track field of a block to the next block's junction. */
  lemma RouteHopLast(c: Color, x: Field, y: Field)
    requires IsField(Mejn, x) && Index(Mejn, x) == LastTrack(Mejn) && y in NextFields(Mejn, x)
    ensures IsField(Mejn, y) && Route(c, x) >= 0 && Route(c, y) == Route(c, x) + 1
  {
    AdjacencyShape(Mejn, x);
    NeighboursAreFields(Mejn, x);
    assert Index(Mejn, y) == 4 && Block(Mejn, y) == (Block(Mejn, x) + 1) % NumPlayers;
  }

  /** Along the track of a block. */
  lemma RouteHopTrack(c: Color, x: Field, y: Field)
    requires IsField(Mejn, x) && 5 <= Index(Mejn, x) < LastTrack(Mejn) && y in NextFields(Mejn, x)
    ensures IsField(Mejn, y) && Route(c, x) >= 0 && Route(c, y) == Route(c, x) + 1
  {
    FieldParts(Mejn, x);
    var k, i := Block(Mejn, x), Index(Mejn, x);
    assert y == x + 1;
    Decompose(Mejn, k, i + 1);
  }

  /** A mejn walk advances along the walker's route one place per hop: the
      i-th field of a path of colour c is i + 1 places beyond the field the
      walk set out from. */
  lemma PathAlongRoute(c: Color, cur: Field, n: int, b: Board, short: bool)
    requires IsField(Mejn, cur)
    ensures var r := PathForColor(c, cur, n, b, short);
            forall i :: 0 <= i < |r| ==> IsField(Mejn, r[i]) && Route(c, r[i]) == Route(c, cur) + i + 1
  {
    var r := PathForColor(c, cur, n, b, short);
    forall i | 0 <= i < |r|
      ensures IsField(Mejn, r[i]) && Route(c, r[i]) == Route(c, cur) + i + 1
    {
      RouteAt(c, cur, r, i);
    }
  }

  lemma {:induction false} RouteAt(c: Color, cur: Field, r: seq<Field>, i: nat)
    requires IsField(Mejn, cur) && i < |r|
    requires forall j :: 0 <= j < |r| ==> r[j] in NextFields(Mejn, At(cur, r, j))
    requires forall x :: x in r && Kind(Mejn, x) == Home ==> ColorOf(Mejn, x) == c
    requires StartField(Mejn, c) !in r
    ensures IsField(Mejn, r[i]) && Route(c, r[i]) == Route(c, cur) + i + 1
    decreases i
  {
    if i > 0 {
      RouteAt(c, cur, r, i - 1);
    }
    assert r[i] in r;
    RouteHop(c, At(cur, r, i), r[i]);
  }
}
