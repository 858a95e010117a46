/** Moves (keezen/move.py and mejn/move.py) and what playing one does to
    the board: each marble move puts its marble on the destination, and
    each of its hit moves sends the marble that stood there back to a wait
    field. */
module Moves {
  import opened Common
  import opened Layout
  import opened BoardState
  import opened Cards

  /** `MoveType` of keezen/move.py. */
  datatype MoveType = StartMove | RunMove | SplitMove | ThrowCards | SwitchMove | DealMove

  /** A hit marble's move: from the field it was hit on to a free wait
      field of its colour, or to nowhere (`None`) when its pen is full. */
  datatype HitMove = HitMove(marble: Marble, from: Field, to: Option<Field>)

  /** `MarbleMove`: `from` is `get_field_for_marble`, `None` for a marble
      that is not on the board; `steps` is the path walked. */
  datatype MarbleMove = MarbleMove(marble: Marble, from: Option<Field>, to: Field, steps: seq<Field>, hits: seq<HitMove>)

  /** `Move`: the player is a seat index. */
  datatype Move = Move(kind: MoveType, player: nat, cards: seq<Card>, marbleMoves: seq<MarbleMove>)

  /** `get_hit_marble_moves` (identical in every card operation and in the
      mejn game): the marble on the destination, if any, goes to the first
      free wait field of its colour. */
  function HitMoves(g: Game, to: Field, b: Board): (r: seq<HitMove>)
    ensures |r| <= 1
    ensures |r| == 1 <==> to in b
    ensures |r| == 1 ==> r[0].marble == b[to] && r[0].from == to
    ensures |r| == 1 && r[0].to.Some? ==>
              var w := r[0].to.value;
              IsField(g, w) && Kind(g, w) == Wait && ColorOf(g, w) == b[to].color && w !in b
    ensures |r| == 1 ==> r[0].to == EmptyWaitField(g, b[to].color, b)
  {
    if to in b then [HitMove(b[to], to, EmptyWaitField(g, b[to].color, b))] else []
  }

  /** On a well-formed board a marble hit off a field outside the pens
      always finds a free wait field. */
  lemma HitAlwaysLands(g: Game, to: Field, b: Board)
    requires WellFormed(g, b) && to in b && Kind(g, to) != Wait
    ensures HitMoves(g, to, b)[0].to.Some?
  {
    FieldOfOnInjective(b, to);
    FreeWaitFieldExists(g, b, b[to]);
  }

  /** `put_marble_on_field` for a hit move; a hit to nowhere leaves the
      board as it is: the moving marble already holds the hit marble's old
      field, so the hit marble stands on no field and a put to `None` is a
      put to where it already is. */
  function ApplyHits(b: Board, hits: seq<HitMove>): Board
    decreases |hits|
  {
    if |hits| == 0 then b
    else
      var b1 := if hits[0].to.Some? then Put(b, hits[0].marble, hits[0].to.value).0 else b;
      ApplyHits(b1, hits[1..])
  }

  /** The loop of `step`: every marble move and then its hits, in order. */
  function ApplyMarbleMoves(b: Board, mms: seq<MarbleMove>): Board
    decreases |mms|
  {
    if |mms| == 0 then b
    else ApplyMarbleMoves(ApplyHits(Put(b, mms[0].marble, mms[0].to).0, mms[0].hits), mms[1..])
  }

  /** A marble move whose hits were computed on the board it is played on
      keeps that board well formed: the marble stands on its destination,
      the marble it hit (if any) stands on the wait field the hit names,
      and every other marble stays where it was. */
  lemma MarbleMoveKeepsBoard(g: Game, b: Board, mm: MarbleMove)
    requires WellFormed(g, b)
    requires IsField(g, mm.to) && Kind(g, mm.to) != Wait
    requires mm.hits == HitMoves(g, mm.to, b)
    requires mm.to in b ==> b[mm.to] != mm.marble
    ensures var b' := ApplyMarbleMoves(b, [mm]);
            && WellFormed(g, b')
            && FieldOf(b', mm.marble) == Some(mm.to)
            && (mm.to in b ==> FieldOf(b', b[mm.to]) == mm.hits[0].to)
            && forall x :: x != mm.marble && (mm.to in b ==> x != b[mm.to]) ==> FieldOf(b', x) == FieldOf(b, x)
  {
    var b1 := Put(b, mm.marble, mm.to).0;
    PutKeepsBoard(g, b, mm.marble, mm.to);
    assert ApplyMarbleMoves(b, [mm]) == ApplyHits(b1, mm.hits);
    if mm.to in b {
      HitAlwaysLands(g, mm.to, b);
      HitLands(g, b, b1, mm.to, mm.marble, mm.hits);
    }
  }

  /** The hit marble, off the board after the move, lands on its free
      wait field. */
  lemma HitLands(g: Game, b: Board, b1: Board, to: Field, m: Marble, hits: seq<HitMove>)
    requires WellFormed(g, b) && to in b && b[to] != m
    requires hits == HitMoves(g, to, b) && hits[0].to.Some?
    requires b1 == Put(b, m, to).0
    requires MostlyWellFormed(g, b1, b[to])
    requires forall x :: x != m && x != b[to] ==> FieldOf(b1, x) == FieldOf(b, x)
    requires FieldOf(b1, m) == Some(to)
    ensures var b' := ApplyHits(b1, hits);
            && WellFormed(g, b')
            && FieldOf(b', m) == Some(to)
            && FieldOf(b', b[to]) == hits[0].to
            && forall x :: x != m && x != b[to] ==> FieldOf(b', x) == FieldOf(b, x)
  {
    var w := hits[0].to.value;
    assert w != to;
    assert w !in b1;
    SendBack(g, b1, b[to], w);
    assert ApplyHits(b1, hits) == ApplyHits(Put(b1, b[to], w).0, []);
  }

  /** A board that is well formed except that marble h is off it. */
  ghost predicate MostlyWellFormed(g: Game, b: Board, h: Marble)
  {
    && (forall f :: f in b ==> IsField(g, f))
    && Injective(b)
    && (forall x: Marble :: x != h ==> FieldOf(b, x).Some?)
    && FieldOf(b, h).None?
    && (forall f :: f in b && Kind(g, f) == Wait ==> b[f].color == ColorOf(g, f))
  }

  /** Putting the missing marble on a free wait field of its colour makes
      the board well formed and moves no one else. */
  lemma SendBack(g: Game, b: Board, h: Marble, w: Field)
    requires MostlyWellFormed(g, b, h)
    requires IsField(g, w) && Kind(g, w) == Wait && ColorOf(g, w) == h.color && w !in b
    ensures var b' := Put(b, h, w).0;
            && WellFormed(g, b')
            && FieldOf(b', h) == Some(w)
            && forall x :: x != h ==> FieldOf(b', x) == FieldOf(b, x)
  {
    var b' := Put(b, h, w).0;
    assert b' == b[w := h];
    forall x | x != h
      ensures FieldOf(b', x) == FieldOf(b, x)
    {
      var k := FieldOf(b, x).value;
      FieldOfOnInjective(b', k);
    }
  }

  /** Moving a marble onto a field outside the pens, off the marble that
      stood there, keeps the board well formed apart from the hit marble,
      which is off the board until it is sent back. */
  lemma PutKeepsBoard(g: Game, b: Board, m: Marble, to: Field)
    requires WellFormed(g, b)
    requires IsField(g, to) && Kind(g, to) != Wait
    requires to in b ==> b[to] != m
    ensures var b1 := Put(b, m, to).0;
            && FieldOf(b1, m) == Some(to)
            && (to in b ==> Put(b, m, to).1 == Some(b[to]) && MostlyWellFormed(g, b1, b[to]))
            && (to !in b ==> WellFormed(g, b1))
            && forall x :: x != m && (to in b ==> x != b[to]) ==> FieldOf(b1, x) == FieldOf(b, x)
  {
    var b1 := Put(b, m, to).0;
    var cur := FieldOf(b, m).value;
    if to in b {
      FieldOfOnInjective(b, to);
    }
    forall x | x != m && (to in b ==> x != b[to])
      ensures FieldOf(b1, x) == FieldOf(b, x)
    {
      var k := FieldOf(b, x).value;
      assert k != cur && k != to;
      FieldOfOnInjective(b1, k);
    }
  }
}
