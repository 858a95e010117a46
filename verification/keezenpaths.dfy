/** Keezen paths (keezen/board.py `get_path_for_color` and
    `get_path_for_marble`) and the movement rules they enforce. */
module KeezenPaths {
  import opened Common
  import opened Layout
  import opened BoardState
  import opened Paths

  /** `Board.get_path_for_color`: the fields a marble of colour c on cur
      passes over when running n steps (backwards when n < 0). */
  function PathForColor(flags: PassFlags, c: Color, cur: Field, n: int, b: Board, short: bool): (r: seq<Field>)
    requires IsField(Keezen, cur)
    ensures |r| <= Abs(n)
    ensures !short ==> r == [] || |r| == Abs(n)
    // every hop goes to a neighbour in the walking direction
    ensures forall i :: 0 <= i < |r| ==>
              r[i] in (if n < 0 then PrevFields(Keezen, At(cur, r, i)) else NextFields(Keezen, At(cur, r, i)))
    // no home field of another colour is ever entered
    ensures forall x :: x in r && Kind(Keezen, x) == Home ==> ColorOf(Keezen, x) == c
    // a backward run never leaves, enters or crosses a home field
    ensures n < 0 ==> forall x :: x in r ==> Kind(Keezen, x) != Home
    ensures n < 0 && Kind(Keezen, cur) == Home ==> r == []
    // forwards, the own start field is passable only if the flag allows it
    ensures n > 0 && !flags.forwards ==> StartField(Keezen, c) !in r
    // a start or home field held by a marble of that field's colour blocks,
    // except the own start field when the flag for the direction allows it
    ensures forall x :: x in r && (Kind(Keezen, x) == Start || Kind(Keezen, x) == Home) &&
                        x in b && b[x].color == ColorOf(Keezen, x) ==>
              (if n < 0 then flags.backwards else flags.forwards) && x == StartField(Keezen, c)
    // a path of all |n| hops the rules allow, when there is one, is the one returned
    ensures forall p :: IsChain(HopOf(KeezenWalker(flags, c, b, n < 0)), cur, p) && |p| == Abs(n) ==> r == p
  {
    var w := KeezenWalker(flags, c, b, n < 0);
    var r := PathFrom(w, cur, n, short);
    KeezenChainRules(w, cur, r);
    r
  }

  /** `Board.get_path_for_marble`: the path from the marble's field. */
  function PathForMarble(m: Marble, n: int, b: Board, short: bool): (r: seq<Field>)
    ensures forall f :: FieldOf(b, m) == Some(f) && IsField(Keezen, f) ==>
              r == PathForColor(DefaultFlags, m.color, f, n, b, short)
    ensures forall f, p ::
              FieldOf(b, m) == Some(f) && IsField(Keezen, f) &&
              IsChain(HopOf(KeezenWalker(DefaultFlags, m.color, b, n < 0)), f, p) && |p| == Abs(n)
              ==> r == p
    ensures OnKind(Keezen, b, m, Wait) ==> r == []
    ensures r != [] ==> FieldOf(b, m).Some? && IsField(Keezen, FieldOf(b, m).value)
    ensures |r| <= Abs(n) && (!short ==> r == [] || |r| == Abs(n))
  {
    match FieldOf(b, m)
    case Some(f) =>
      if IsField(Keezen, f) then
        var r := PathForColor(DefaultFlags, m.color, f, n, b, short);
        if Kind(Keezen, f) == Wait then
          WaitIsStuck(m.color, f, n, b);
          r
        else r
      else []
    case None => []
  }

  lemma WaitIsStuck(c: Color, f: Field, n: int, b: Board)
    requires IsField(Keezen, f) && Kind(Keezen, f) == Wait
    ensures PathForColor(DefaultFlags, c, f, n, b, true) == []
    ensures PathForColor(DefaultFlags, c, f, n, b, false) == []
  {
    AdjacencyShape(Keezen, f);
  }

  /** The previous field of a field off the home spur is never a home
      field. */
  lemma PrevOffHome(g: Game, f: Field)
    requires IsField(g, f) && Kind(g, f) != Home
    ensures forall x :: x in PrevFields(g, f) ==> Kind(g, x) != Home
  {
    var bs, k, i := BlockSize(g), Block(g, f), Index(g, f);
    FieldParts(g, f);
    if i == 4 {
      if k == 0 {
        Decompose(g, 3, bs - 5);
      } else {
        Decompose(g, k - 1, bs - 5);
      }
    } else if 5 <= i < WaitBase(g) {
      Decompose(g, k, i - 1);
    }
  }

  /** The rules one allowed Keezen hop obeys. */
  lemma HopRules(w: Walker, prev: Field, x: Field)
    requires w.KeezenWalker? && Allowed(w, prev, x) && IsField(Keezen, x)
    ensures Kind(Keezen, x) == Home ==> ColorOf(Keezen, x) == w.color
    ensures w.backwards ==> Kind(Keezen, prev) != Home
    ensures !w.backwards && !w.flags.forwards ==> x != StartField(Keezen, w.color)
    ensures (Kind(Keezen, x) == Start || Kind(Keezen, x) == Home) &&
            x in w.board && w.board[x].color == ColorOf(Keezen, x) ==>
              (if w.backwards then w.flags.backwards else w.flags.forwards) && x == StartField(Keezen, w.color)
  {
    assert KeezenAllowed(w.flags, w.color, prev, x, w.board, w.backwards);
    StartFieldUnique(Keezen, x, w.color);
  }

  /** The single hop rules, applied to every hop of a chain. */
  lemma KeezenChainRules(w: Walker, cur: Field, r: seq<Field>)
    requires w.KeezenWalker? && IsField(Keezen, cur)
    requires IsChain(HopOf(w), cur, r)
    ensures forall i :: 0 <= i < |r| ==> r[i] in Candidates(w, At(cur, r, i))
    ensures forall x :: x in r && Kind(Keezen, x) == Home ==> ColorOf(Keezen, x) == w.color
    ensures w.backwards ==> forall x :: x in r ==> Kind(Keezen, x) != Home
    ensures w.backwards && Kind(Keezen, cur) == Home ==> r == []
    ensures !w.backwards && !w.flags.forwards ==> StartField(Keezen, w.color) !in r
    ensures forall x :: x in r && (Kind(Keezen, x) == Start || Kind(Keezen, x) == Home) &&
                        x in w.board && w.board[x].color == ColorOf(Keezen, x) ==>
              (if w.backwards then w.flags.backwards else w.flags.forwards) && x == StartField(Keezen, w.color)
  {
    forall i | 0 <= i < |r|
      ensures r[i] in Candidates(w, At(cur, r, i))
    {
      HopFacts(w, cur, r, i);
    }
    if |r| > 0 {
      HopFacts(w, cur, r, 0);
      HopRules(w, cur, r[0]);
    }
    forall x | x in r
      ensures Kind(Keezen, x) == Home ==> ColorOf(Keezen, x) == w.color
      ensures w.backwards ==> Kind(Keezen, x) != Home
      ensures !w.backwards && !w.flags.forwards ==> x != StartField(Keezen, w.color)
      ensures (Kind(Keezen, x) == Start || Kind(Keezen, x) == Home) &&
              x in w.board && w.board[x].color == ColorOf(Keezen, x) ==>
                (if w.backwards then w.flags.backwards else w.flags.forwards) && x == StartField(Keezen, w.color)
    {
      var i :| 0 <= i < |r| && r[i] == x;
      HopFacts(w, cur, r, i);
      HopRules(w, At(cur, r, i), x);
      if w.backwards {
        PrevOffHome(Keezen, At(cur, r, i));
      }
    }
  }

  /** Hop i of a chain goes to an allowed candidate. */
  lemma HopAt(w: Walker, cur: Field, r: seq<Field>, i: nat)
    requires IsChain(HopOf(w), cur, r)
    requires i < |r|
    ensures r[i] in Candidates(w, At(cur, r, i)) && Allowed(w, At(cur, r, i), r[i])
  {
    assert HopOf(w)(At(cur, r, i)) == Some(r[i]);
  }

  /** A chain from a field stays on the board. */
  lemma {:induction false} ChainOnBoard(w: Walker, cur: Field, r: seq<Field>, i: nat)
    requires w.KeezenWalker? && IsField(Keezen, cur)
    requires IsChain(HopOf(w), cur, r)
    requires i <= |r|
    ensures IsField(Keezen, At(cur, r, i))
    decreases i
  {
    if i > 0 {
      ChainOnBoard(w, cur, r, i - 1);
      HopAt(w, cur, r, i - 1);
      NeighboursAreFields(Keezen, At(cur, r, i - 1));
    }
  }

  /** Hop i of a chain: an allowed hop between fields, and in a backward
      chain it never starts on a home field. */
  lemma HopFacts(w: Walker, cur: Field, r: seq<Field>, i: nat)
    requires w.KeezenWalker? && IsField(Keezen, cur)
    requires IsChain(HopOf(w), cur, r)
    requires i < |r|
    ensures r[i] in Candidates(w, At(cur, r, i)) && Allowed(w, At(cur, r, i), r[i])
    ensures IsField(Keezen, At(cur, r, i)) && IsField(Keezen, r[i])
    ensures w.backwards ==> Kind(Keezen, At(cur, r, i)) != Home
  {
    HopAt(w, cur, r, i);
    ChainOnBoard(w, cur, r, i);
    ChainOnBoard(w, cur, r, i + 1);
    if w.backwards {
      HopRules(w, At(cur, r, i), r[i]);
    }
  }

  /** Inside the home spur the only way forward is one field deeper. */
  lemma HomeNext(f: Field)
    requires IsField(Keezen, f) && Kind(Keezen, f) == Home
    ensures forall x :: x in NextFields(Keezen, f) ==>
              x == f - 1 && Kind(Keezen, x) == Home && ColorOf(Keezen, x) == ColorOf(Keezen, f)
  {
    FieldParts(Keezen, f);
    if Index(Keezen, f) > 0 {
      Decompose(Keezen, Block(Keezen, f), Index(Keezen, f) - 1);
    }
  }

  /** A forward hop out of a home field goes one field deeper. */
  lemma ForwardHomeHop(w: Walker, cur: Field, r: seq<Field>, j: nat)
    requires w.KeezenWalker? && !w.backwards && IsField(Keezen, cur)
    requires IsChain(HopOf(w), cur, r)
    requires 0 < j < |r| && Kind(Keezen, r[j - 1]) == Home
    ensures r[j] == r[j - 1] - 1 && Kind(Keezen, r[j]) == Home
    ensures ColorOf(Keezen, r[j]) == ColorOf(Keezen, r[j - 1])
  {
    ChainOnBoard(w, cur, r, j);
    HopLink(w, cur, r, j);
    assert r[j] in NextFields(Keezen, r[j - 1]);
    HomeNext(r[j - 1]);
  }

  /** Once a forward run enters the home spur it stays there, one field
      deeper with every hop. */
  lemma {:induction false} HomeIsOneWay(w: Walker, cur: Field, r: seq<Field>, i: nat, j: nat)
    requires w.KeezenWalker? && !w.backwards && IsField(Keezen, cur)
    requires IsChain(HopOf(w), cur, r)
    requires i < j < |r| && Kind(Keezen, r[i]) == Home
    ensures Kind(Keezen, r[j]) == Home && ColorOf(Keezen, r[j]) == ColorOf(Keezen, r[i])
    ensures r[j] == r[i] - (j - i)
    decreases j
  {
    if j > i + 1 {
      HomeIsOneWay(w, cur, r, i, j - 1);
    }
    ForwardHomeHop(w, cur, r, j);
  }

  /** The same for the paths `get_path_for_color` returns: after the
      first home field of a forward path, every field is a deeper home
      field of the walker's colour. */
  lemma ForwardPathHomeIsOneWay(flags: PassFlags, c: Color, cur: Field, n: int, b: Board, short: bool, i: nat, j: nat)
    requires IsField(Keezen, cur) && n > 0
    requires i < j < |PathForColor(flags, c, cur, n, b, short)|
    requires Kind(Keezen, PathForColor(flags, c, cur, n, b, short)[i]) == Home
    ensures var r := PathForColor(flags, c, cur, n, b, short);
            Kind(Keezen, r[j]) == Home && ColorOf(Keezen, r[j]) == c && r[j] == r[i] - (j - i)
  {
    var w := KeezenWalker(flags, c, b, false);
    var r := PathForColor(flags, c, cur, n, b, short);
    assert r == PathFrom(w, cur, n, short);
    assert r[i] in r;
    HomeIsOneWay(w, cur, r, i, j);
  }

  /** A path from a field never leaves the board. */
  lemma PathOnBoard(flags: PassFlags, c: Color, cur: Field, n: int, b: Board, short: bool)
    requires IsField(Keezen, cur)
    ensures forall x :: x in PathForColor(flags, c, cur, n, b, short) ==> IsField(Keezen, x)
  {
    var w := KeezenWalker(flags, c, b, n < 0);
    var r := PathForColor(flags, c, cur, n, b, short);
    assert r == PathFrom(w, cur, n, short);
    forall i | 0 <= i < |r|
      ensures IsField(Keezen, r[i])
    {
      HopFacts(w, cur, r, i);
    }
  }

  /** Forwards with the default flags, a marble reaching the junction in
      front of its own start field turns into its home spur, unless a
      marble of its colour already holds the home entrance: then it is
      stuck. It never steps onto its own start field. */
  lemma ForwardAtOwnJunction(c: Color, b: Board)
    ensures var j := c * BlockSize(Keezen) + 4;
            var entrance := c * BlockSize(Keezen) + 3;
            var h := Hop(KeezenWalker(DefaultFlags, c, b, false), j);
            && (entrance in b && b[entrance].color == c ==> h == None)
            && (!(entrance in b && b[entrance].color == c) ==> h == Some(entrance))
  {
    Decompose(Keezen, c, 3);
    Decompose(Keezen, c, 4);
    Decompose(Keezen, c, 5);
  }

  /** A marble on its own start field blocks every marble of another
      colour running forwards past it. */
  lemma OwnerBlocksStart(flags: PassFlags, c: Color, d: Color, b: Board)
    requires c != d
    requires StartField(Keezen, d) in b && b[StartField(Keezen, d)].color == d
    ensures Hop(KeezenWalker(flags, c, b, false), d * BlockSize(Keezen) + 4) == None
  {
    Decompose(Keezen, d, 3);
    Decompose(Keezen, d, 4);
    Decompose(Keezen, d, 5);
  }

  /** Running backwards onto the own start field ignores who stands on it
      and is decided by `startFieldPassingBackwards` alone. */
  lemma BackwardOntoOwnStart(flags: PassFlags, c: Color, b: Board)
    ensures var h := Hop(KeezenWalker(flags, c, b, true), StartField(Keezen, c) + 1);
            flags.backwards <==> h == Some(StartField(Keezen, c))
  {
    Decompose(Keezen, c, 5);
    Decompose(Keezen, c, 6);
  }

  /** A backward hop along the track: from a field with index 7..19 to
      the neutral field before it, whoever stands there. */
  lemma BackHopOnTrack(w: Walker, f: Field)
    requires w.KeezenWalker? && w.backwards
    requires IsField(Keezen, f) && 7 <= Index(Keezen, f) <= 19
    ensures Hop(w, f) == Some(f - 1)
  {
    FieldParts(Keezen, f);
    Decompose(Keezen, Block(Keezen, f), Index(Keezen, f) - 1);
  }

  /** The field before the junction of block c: the last track field of
      the previous block, wrapping round from block 0 to block 3. */
  function TrackBefore(c: Color): (p: Field)
    ensures IsField(Keezen, p) && Index(Keezen, p) == 19
    ensures PrevFields(Keezen, c * BlockSize(Keezen) + 4) == [p]
  {
    Decompose(Keezen, c, 4);
    if c == 0 then
      Decompose(Keezen, 3, 19);
      NumFields(Keezen) - 5
    else
      Decompose(Keezen, c - 1, 19);
      c * BlockSize(Keezen) - 5
  }

  /** Backwards from the own start field: to the junction, whoever stands
      there, and on to the previous block's last track field, since a
      backward hop never enters a home spur. */
  lemma BackFromStartHops(w: Walker)
    requires w.KeezenWalker? && w.backwards
    ensures var s := StartField(Keezen, w.color);
            Hop(w, s) == Some(s - 1) && Hop(w, s - 1) == Some(TrackBefore(w.color))
  {
    BackFromStart(w);
    BackFromJunction(w);
  }

  lemma BackFromStart(w: Walker)
    requires w.KeezenWalker? && w.backwards
    ensures Hop(w, StartField(Keezen, w.color)) == Some(StartField(Keezen, w.color) - 1)
  {
    Decompose(Keezen, w.color, 4);
    Decompose(Keezen, w.color, 5);
  }

  lemma BackFromJunction(w: Walker)
    requires w.KeezenWalker? && w.backwards
    ensures Hop(w, StartField(Keezen, w.color) - 1) == Some(TrackBefore(w.color))
  {
    Decompose(Keezen, w.color, 4);
    var p := TrackBefore(w.color);
    FieldParts(Keezen, p);
  }

  /** Four hops that the hop function takes one after the other. */
  lemma FourHops(h: Field -> Option<Field>, x0: Field, x1: Field, x2: Field, x3: Field, x4: Field)
    requires h(x0) == Some(x1) && h(x1) == Some(x2) && h(x2) == Some(x3) && h(x3) == Some(x4)
    ensures Walk(h, x0, 4) == [x1, x2, x3, x4]
  {
    var p := [x1, x2, x3, x4];
    assert At(x0, p, 0) == x0 && At(x0, p, 1) == x1 && At(x0, p, 2) == x2 && At(x0, p, 3) == x3;
    ChainIsWalk(h, x0, p, 4);
  }

  /** Four hops back from the own start field. */
  lemma WalkFourBack(w: Walker)
    requires w.KeezenWalker? && w.backwards
    ensures var s := StartField(Keezen, w.color);
            var p := TrackBefore(w.color);
            Walk(HopOf(w), s, 4) == [s - 1, p, p - 1, p - 2]
  {
    var s := StartField(Keezen, w.color);
    var p := TrackBefore(w.color);
    BackFromStartHops(w);
    BackHopOnTrack(w, p);
    FieldParts(Keezen, p);
    Decompose(Keezen, Block(Keezen, p), 18);
    BackHopOnTrack(w, p - 1);
    FourHops(HopOf(w), s, s - 1, p, p - 1, p - 2);
  }

  /** The four-step backward run (the FOUR card) from the own start field
      crosses the junction into the previous block's track, whatever the
      board holds, since none of those fields is a start or home field. */
  lemma FourBackFromStart(flags: PassFlags, c: Color, b: Board)
    ensures var s := StartField(Keezen, c);
            var p := TrackBefore(c);
            PathForColor(flags, c, s, -4, b, false) == [s - 1, p, p - 1, p - 2]
  {
    var w := KeezenWalker(flags, c, b, true);
    WalkFourBack(w);
    assert PathForColor(flags, c, StartField(Keezen, c), -4, b, false) == PathFrom(w, StartField(Keezen, c), -4, false);
  }

  // ------------------------------------------------------------ the ring

  /** The 64 fields a marble runs round: the junction, the start field and
      the track of every block. */
  predicate OnRing(f: Field)
  {
    IsField(Keezen, f) && 4 <= Index(Keezen, f) <= LastTrack(Keezen)
  }

  /** A ring field's place on the ring, counted from block 0's junction. */
  function RingPos(f: Field): int
  {
    16 * Block(Keezen, f) + Index(Keezen, f) - 4
  }

  /** The ring place after p, forwards or backwards. */
  function RingNext(p: int, back: bool): int
  {
    if back then (if p == 0 then 63 else p - 1) else (if p == 63 then 0 else p + 1)
  }

  /** The ring place k places after p (before it when running backwards),
      for k below a full lap. */
  function RingAfter(p: int, k: int, back: bool): int
  {
    if back then (if p - k < 0 then p - k + 64 else p - k)
    else (if p + k >= 64 then p + k - 64 else p + k)
  }

  /** A hop between ring fields that stays off the home spurs moves one
      place round the ring, forwards or backwards. */
  lemma RingHop(w: Walker, f: Field, x: Field)
    requires w.KeezenWalker? && OnRing(f) && Kind(Keezen, x) != Home
    requires x in Candidates(w, f)
    ensures OnRing(x) && 0 <= RingPos(f) < 64
    ensures RingPos(x) == RingNext(RingPos(f), w.backwards)
  {
    FieldParts(Keezen, f);
    if w.backwards {
      RingHopBack(f, x);
    } else if Index(Keezen, f) == 19 {
      RingHopOver(f, x);
    } else {
      RingHopOn(f, x);
    }
  }

  lemma RingHopBack(f: Field, x: Field)
    requires OnRing(f) && x in PrevFields(Keezen, f)
    ensures OnRing(x) && 0 <= RingPos(f) < 64
    ensures RingPos(x) == RingNext(RingPos(f), true)
  {
    FieldParts(Keezen, f);
    var k, i := Block(Keezen, f), Index(Keezen, f);
    if i == 4 {
      if k == 0 {
        Decompose(Keezen, 3, 19);
      } else {
        Decompose(Keezen, k - 1, 19);
      }
    } else {
      Decompose(Keezen, k, i - 1);
    }
  }

  /** Forwards from a block's last track field to the next junction. */
  lemma RingHopOver(f: Field, x: Field)
    requires OnRing(f) && Index(Keezen, f) == 19 && x in NextFields(Keezen, f)
    ensures OnRing(x) && 0 <= RingPos(f) < 64
    ensures RingPos(x) == RingNext(RingPos(f), false)
  {
    FieldParts(Keezen, f);
    var k := Block(Keezen, f);
    if k == 3 {
      Decompose(Keezen, 0, 4);
    } else {
      Decompose(Keezen, k + 1, 4);
    }
  }

  /** Forwards inside a block, off the home spur. */
  lemma RingHopOn(f: Field, x: Field)
    requires OnRing(f) && Index(Keezen, f) < 19 && x in NextFields(Keezen, f) && Kind(Keezen, x) != Home
    ensures OnRing(x) && 0 <= RingPos(f) < 64
    ensures RingPos(x) == RingNext(RingPos(f), false)
  {
    FieldParts(Keezen, f);
    var k, i := Block(Keezen, f), Index(Keezen, f);
    Decompose(Keezen, k, i + 1);
    if i == 4 {
      Decompose(Keezen, k, 3);
    }
  }

  /** After k hops that keep off the home spurs a chain from a ring field
      stands k places further round the ring (k places back when it runs
      backwards). */
  lemma {:induction false} RingChain(w: Walker, cur: Field, r: seq<Field>, k: nat)
    requires w.KeezenWalker? && OnRing(cur)
    requires IsChain(HopOf(w), cur, r)
    requires k <= |r| && k < 64 && forall i :: 0 <= i < k ==> Kind(Keezen, r[i]) != Home
    ensures OnRing(At(cur, r, k)) && 0 <= RingPos(cur) < 64
    ensures RingPos(At(cur, r, k)) == RingAfter(RingPos(cur), k, w.backwards)
    decreases k
  {
    if k == 0 {
      FieldParts(Keezen, cur);
    } else {
      RingChain(w, cur, r, k - 1);
      HopAt(w, cur, r, k - 1);
      var prev, x := At(cur, r, k - 1), r[k - 1];
      assert At(cur, r, k) == x;
      assert Kind(Keezen, x) != Home;
      RingHop(w, prev, x);
      RingStep(RingPos(cur), RingPos(prev), RingPos(x), k, w.backwards);
    }
  }

  /** One more place round the ring. */
  lemma RingStep(a: int, p: int, q: int, k: int, back: bool)
    requires 0 <= a < 64 && 0 < k < 64
    requires p == RingAfter(a, k - 1, back) && q == RingNext(p, back)
    ensures q == RingAfter(a, k, back)
  {
  }

  /** A path never ends on the field it started from: in the home spur it
      only goes deeper, and round the ring fewer than 64 steps never come
      back to the same place. */
  lemma PathLeaves(flags: PassFlags, c: Color, cur: Field, n: int, b: Board, short: bool)
    requires IsField(Keezen, cur) && Abs(n) < 64
    requires PathForColor(flags, c, cur, n, b, short) != []
    ensures Last(PathForColor(flags, c, cur, n, b, short)) != cur
  {
    var r := PathForColor(flags, c, cur, n, b, short);
    FirstHop(flags, c, cur, n, b, short);
    if Kind(Keezen, cur) == Home {
      HomePathLeaves(flags, c, cur, n, b, short);
    } else if Kind(Keezen, Last(r)) != Home {
      RingPathLeaves(flags, c, cur, n, b, short);
    }
  }

  /** The first hop of a path goes to a neighbour of its start, so a path
      never starts on a wait field. */
  lemma FirstHop(flags: PassFlags, c: Color, cur: Field, n: int, b: Board, short: bool)
    requires IsField(Keezen, cur)
    requires PathForColor(flags, c, cur, n, b, short) != []
    ensures var r := PathForColor(flags, c, cur, n, b, short);
            r[0] in (if n < 0 then PrevFields(Keezen, cur) else NextFields(Keezen, cur))
    ensures Kind(Keezen, cur) != Wait
  {
    var r := PathForColor(flags, c, cur, n, b, short);
    assert At(cur, r, 0) == cur;
    AdjacencyShape(Keezen, cur);
  }

  lemma HomePathLeaves(flags: PassFlags, c: Color, cur: Field, n: int, b: Board, short: bool)
    requires IsField(Keezen, cur) && Kind(Keezen, cur) == Home
    requires PathForColor(flags, c, cur, n, b, short) != []
    requires var r := PathForColor(flags, c, cur, n, b, short);
             r[0] in (if n < 0 then PrevFields(Keezen, cur) else NextFields(Keezen, cur))
    ensures Last(PathForColor(flags, c, cur, n, b, short)) < cur
  {
    var r := PathForColor(flags, c, cur, n, b, short);
    HomeNext(cur);
    if |r| > 1 {
      ForwardPathHomeIsOneWay(flags, c, cur, n, b, short, 0, |r| - 1);
    }
  }

  lemma RingPathLeaves(flags: PassFlags, c: Color, cur: Field, n: int, b: Board, short: bool)
    requires IsField(Keezen, cur) && Abs(n) < 64
    requires Kind(Keezen, cur) != Home && Kind(Keezen, cur) != Wait
    requires PathForColor(flags, c, cur, n, b, short) != []
    requires Kind(Keezen, Last(PathForColor(flags, c, cur, n, b, short))) != Home
    ensures Last(PathForColor(flags, c, cur, n, b, short)) != cur
  {
    var w := KeezenWalker(flags, c, b, n < 0);
    var r := PathForColor(flags, c, cur, n, b, short);
    assert r == PathFrom(w, cur, n, short);
    PathOffHome(flags, c, cur, n, b, short);
    RingChainLeaves(w, cur, r);
  }

  /** A chain of fewer than 64 hops round the ring, off the home spurs,
      does not come back to where it started. */
  lemma RingChainLeaves(w: Walker, cur: Field, r: seq<Field>)
    requires w.KeezenWalker? && IsField(Keezen, cur)
    requires Kind(Keezen, cur) != Home && Kind(Keezen, cur) != Wait
    requires IsChain(HopOf(w), cur, r) && 0 < |r| < 64
    requires forall i :: 0 <= i < |r| ==> Kind(Keezen, r[i]) != Home
    ensures Last(r) != cur
  {
    FieldParts(Keezen, cur);
    RingChain(w, cur, r, |r|);
    assert At(cur, r, |r|) == Last(r);
    assert RingPos(Last(r)) != RingPos(cur);
  }

  /** A path that does not end in a home spur never enters one. */
  lemma PathOffHome(flags: PassFlags, c: Color, cur: Field, n: int, b: Board, short: bool)
    requires IsField(Keezen, cur)
    requires PathForColor(flags, c, cur, n, b, short) != []
    requires Kind(Keezen, Last(PathForColor(flags, c, cur, n, b, short))) != Home
    ensures var r := PathForColor(flags, c, cur, n, b, short);
            forall i :: 0 <= i < |r| ==> Kind(Keezen, r[i]) != Home
  {
    var r := PathForColor(flags, c, cur, n, b, short);
    forall i | 0 <= i < |r|
      ensures Kind(Keezen, r[i]) != Home
    {
      HomeOnlyAtEnd(flags, c, cur, n, b, short, i);
    }
  }

  /** A home field on a path means the path ends in the home spur. */
  lemma HomeOnlyAtEnd(flags: PassFlags, c: Color, cur: Field, n: int, b: Board, short: bool, i: nat)
    requires IsField(Keezen, cur) && i < |PathForColor(flags, c, cur, n, b, short)|
    ensures var r := PathForColor(flags, c, cur, n, b, short);
            Kind(Keezen, r[i]) == Home ==> Kind(Keezen, Last(r)) == Home
  {
    var r := PathForColor(flags, c, cur, n, b, short);
    assert r[i] in r;
    if n > 0 && i < |r| - 1 && Kind(Keezen, r[i]) == Home {
      ForwardPathHomeIsOneWay(flags, c, cur, n, b, short, i, |r| - 1);
    }
  }
}
