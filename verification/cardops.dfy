/** The card operations of keezen/cardop.py: for the player at seat
    `player`, who moves the marbles of colour `pw` (`plays_with_color`),
    the moves one card allows on board b. */
module CardOps {
  import opened Common
  import opened Layout
  import opened BoardState
  import opened Paths
  import opened KeezenPaths
  import opened Cards
  import opened Rules
  import opened Moves
  import opened Seats

  /** The hit moves of a marble move ending on `to`. */
  function Hits(to: Field, b: Board): seq<HitMove>
  {
    HitMoves(Keezen, to, b)
  }

  // ---------------------------------------------------------------- start

  /** The start field of pw is open to a marble of pw unless a marble of
      pw already stands on it. */
  predicate StartOpen(pw: Color, b: Board)
  {
    var s := StartField(Keezen, pw);
    s !in b || b[s].color != pw
  }

  /** `CardOpStart.get_moves`: the lowest waiting marble of pw onto pw's
      start field. */
  function StartMoves(player: nat, pw: Color, card: Card, b: Board): (r: seq<Move>)
    ensures forall mv :: mv in r ==> mv.kind == StartMove && mv.player == player && mv.cards == [card]
    ensures |r| <= 1
    ensures |r| == 1 <==> StartOpen(pw, b) && exists i :: 0 <= i < 4 && OnKind(Keezen, b, Marble(pw, i), Wait)
    ensures |r| == 1 ==>
              var mv := r[0];
              && mv.kind == StartMove && mv.player == player && mv.cards == [card]
              && |mv.marbleMoves| == 1
              && var mm := mv.marbleMoves[0];
              && mm.marble.color == pw && OnKind(Keezen, b, mm.marble, Wait)
              && (forall i :: 0 <= i < mm.marble.idx ==> !OnKind(Keezen, b, Marble(pw, i), Wait))
              && mm.from == FieldOf(b, mm.marble)
              && mm.to == StartField(Keezen, pw) && mm.steps == []
              && mm.hits == Hits(StartField(Keezen, pw), b)
  {
    var s := StartField(Keezen, pw);
    if StartOpen(pw, b) then
      match WaitingMarble(Keezen, pw, b)
      case Some(m) => [Move(StartMove, player, [card], [MarbleMove(m, FieldOf(b, m), s, [], Hits(s, b))])]
      case None => []
    else []
  }

  /** A start move onto a start field held by another colour carries
      exactly one hit, which sends that marble to a free wait field of its
      own colour; onto an empty start field it hits nothing. */
  lemma StartHit(player: nat, pw: Color, card: Card, b: Board)
    requires WellFormed(Keezen, b)
    requires |StartMoves(player, pw, card, b)| == 1
    ensures var hits := StartMoves(player, pw, card, b)[0].marbleMoves[0].hits;
            var s := StartField(Keezen, pw);
            && (s !in b ==> hits == [])
            && (s in b ==>
                  && |hits| == 1 && hits[0].marble == b[s] && hits[0].marble.color != pw
                  && hits[0].from == s && hits[0].to.Some?
                  && Kind(Keezen, hits[0].to.value) == Wait
                  && ColorOf(Keezen, hits[0].to.value) == hits[0].marble.color
                  && hits[0].to.value !in b)
  {
    var s := StartField(Keezen, pw);
    if s in b {
      HitAlwaysLands(Keezen, s, b);
    }
  }

  // ------------------------------------------------------------------ run

  /** The run move of marble m over n fields, if m has a full path. */
  function RunFor(player: nat, card: Card, n: int, b: Board, m: Marble): (r: Option<Move>)
    ensures r.Some? <==> PathForMarble(m, n, b, false) != []
    ensures r.Some? ==>
              var mv := r.value;
              && mv.kind == RunMove && mv.player == player && mv.cards == [card]
              && |mv.marbleMoves| == 1
              && var mm := mv.marbleMoves[0];
              && mm.marble == m && mm.from.Some? && mm.from == FieldOf(b, m)
              && |mm.steps| == Abs(n) && mm.steps == PathForMarble(m, n, b, false)
              && mm.to == Last(mm.steps) && mm.hits == Hits(mm.to, b)
  {
    var path := PathForMarble(m, n, b, false);
    if path == [] then None
    else Some(Move(RunMove, player, [card], [MarbleMove(m, FieldOf(b, m), Last(path), path, Hits(Last(path), b))]))
  }

  /** `CardOpRun.get_moves`: one run move per marble of pw that has a
      full path of n fields, and no other. */
  function RunMoves(player: nat, pw: Color, card: Card, n: int, b: Board): (r: seq<Move>)
    ensures forall mv :: mv in r ==> mv.kind == RunMove && mv.player == player && mv.cards == [card]
    ensures |r| <= 4
    ensures forall mv :: mv in r ==>
              exists i :: 0 <= i < 4 && RunFor(player, card, n, b, Marble(pw, i)) == Some(mv)
    ensures forall i :: 0 <= i < 4 && PathForMarble(Marble(pw, i), n, b, false) != [] ==>
              RunFor(player, card, n, b, Marble(pw, i)).value in r
  {
    var ms := MarblesWithColor(pw);
    var r := Collect(m => RunFor(player, card, n, b, m), ms);
    forall mv | mv in r
      ensures exists i :: 0 <= i < 4 && RunFor(player, card, n, b, Marble(pw, i)) == Some(mv)
    {
      var m :| m in ms && RunFor(player, card, n, b, m) == Some(mv);
      assert m == Marble(pw, m.idx);
    }
    assert forall i :: 0 <= i < 4 ==> Marble(pw, i) in ms;
    r
  }

  // --------------------------------------------------------------- switch

  /** `is_marble_switchable`. The source reads the type of the marble's
      field; a marble off the board (field `None`) would raise there and
      counts as not switchable here. */
  function IsSwitchable(m: Marble, f: Option<Field>, pw: Color): (r: bool)
    ensures r <==> f.Some? && (Kind(Keezen, f.value) == Normal ||
                               (Kind(Keezen, f.value) == Start && (ColorOf(Keezen, f.value) == m.color ==> m.color == pw)))
  {
    if f.None? then false
    else
      var k := Kind(Keezen, f.value);
      if k == Wait || k == Home then false
      else if k == Start && ColorOf(Keezen, f.value) == m.color then m.color == pw
      else true
  }

  /** The switch of m1 and m2: each goes to the other's field, no hits. */
  function SwitchOf(player: nat, card: Card, b: Board, m1: Marble, m2: Marble): (mv: Move)
    requires FieldOf(b, m1).Some? && FieldOf(b, m2).Some?
    ensures mv.kind == SwitchMove && mv.player == player && mv.cards == [card]
    ensures |mv.marbleMoves| == 2
    ensures mv.marbleMoves[0].marble == m1 && mv.marbleMoves[1].marble == m2
    ensures mv.marbleMoves[0].from == FieldOf(b, m1) && mv.marbleMoves[0].to == FieldOf(b, m2).value
    ensures mv.marbleMoves[1].from == FieldOf(b, m2) && mv.marbleMoves[1].to == FieldOf(b, m1).value
    ensures mv.marbleMoves[0].hits == [] && mv.marbleMoves[1].hits == []
  {
    var f1, f2 := FieldOf(b, m1), FieldOf(b, m2);
    Move(SwitchMove, player, [card], [MarbleMove(m1, f1, f2.value, [], []), MarbleMove(m2, f2, f1.value, [], [])])
  }

  /** The switch of m1 with m2, if they may be switched. */
  function SwitchWith(player: nat, pw: Color, card: Card, b: Board, m1: Marble, m2: Marble): (r: Option<Move>)
    ensures r.Some? <==> SwitchPair(pw, b, m1, m2)
    ensures r.Some? ==> r.value == SwitchOf(player, card, b, m1, m2)
  {
    if SwitchPair(pw, b, m1, m2) then Some(SwitchOf(player, card, b, m1, m2)) else None
  }

  /** Whether m1 of pw and m2 of another colour may be switched. */
  predicate SwitchPair(pw: Color, b: Board, m1: Marble, m2: Marble)
  {
    && m1.color == pw && m2.color != pw
    && IsSwitchable(m1, FieldOf(b, m1), pw) && IsSwitchable(m2, FieldOf(b, m2), pw)
  }

  /** `CardOpSwitchOneOwnMarble.get_moves`: every switchable marble of pw
      against every switchable marble of another colour. */
  function SwitchMoves(player: nat, pw: Color, card: Card, b: Board): (r: seq<Move>)
    ensures forall mv :: mv in r ==> mv.kind == SwitchMove && mv.player == player && mv.cards == [card]
  {
    var ps := Pairs(MarblesWithColor(pw), AllMarbles());
    var f := (p: (Marble, Marble)) => SwitchWith(player, pw, card, b, p.0, p.1);
    var r := Collect(f, ps);
    SwitchCollected(player, pw, card, b, ps, f, r);
    r
  }

  /** The switch moves are exactly the switches of a switchable marble of
      pw with a switchable marble of another colour. */
  lemma SwitchMovesSpec(player: nat, pw: Color, card: Card, b: Board)
    ensures forall mv :: mv in SwitchMoves(player, pw, card, b) ==>
              exists m1, m2 :: SwitchPair(pw, b, m1, m2) && mv == SwitchOf(player, card, b, m1, m2)
    ensures forall m1, m2 :: SwitchPair(pw, b, m1, m2) ==> SwitchOf(player, card, b, m1, m2) in SwitchMoves(player, pw, card, b)
  {
    var ps := Pairs(MarblesWithColor(pw), AllMarbles());
    var f := (p: (Marble, Marble)) => SwitchWith(player, pw, card, b, p.0, p.1);
    SwitchCollected(player, pw, card, b, ps, f, Collect(f, ps));
  }

  lemma SwitchCollected(player: nat, pw: Color, card: Card, b: Board, ps: seq<(Marble, Marble)>,
                        f: ((Marble, Marble)) -> Option<Move>, r: seq<Move>)
    requires forall p :: p in ps <==> p.0.color == pw
    requires forall p :: f(p) == SwitchWith(player, pw, card, b, p.0, p.1)
    requires forall mv :: mv in r ==> exists p :: p in ps && f(p) == Some(mv)
    requires forall p :: p in ps && f(p).Some? ==> f(p).value in r
    ensures forall mv :: mv in r ==>
              exists m1, m2 :: SwitchPair(pw, b, m1, m2) && mv == SwitchOf(player, card, b, m1, m2)
    ensures forall m1, m2 :: SwitchPair(pw, b, m1, m2) ==> SwitchOf(player, card, b, m1, m2) in r
    ensures forall mv :: mv in r ==> mv.kind == SwitchMove && mv.player == player && mv.cards == [card]
  {
    forall mv | mv in r
      ensures exists m1, m2 :: SwitchPair(pw, b, m1, m2) && mv == SwitchOf(player, card, b, m1, m2)
      ensures mv.kind == SwitchMove && mv.player == player && mv.cards == [card]
    {
      var p :| p in ps && f(p) == Some(mv);
    }
    forall m1, m2 | SwitchPair(pw, b, m1, m2)
      ensures SwitchOf(player, card, b, m1, m2) in r
    {
      assert (m1, m2) in ps;
    }
  }

  /** Playing a switch exchanges the two marbles' fields and changes
      nothing else. */
  lemma SwitchExchanges(player: nat, card: Card, b: Board, m1: Marble, m2: Marble)
    requires Injective(b) && m1 != m2
    requires FieldOf(b, m1).Some? && FieldOf(b, m2).Some?
    ensures var f1, f2 := FieldOf(b, m1).value, FieldOf(b, m2).value;
            ApplyMarbleMoves(b, SwitchOf(player, card, b, m1, m2).marbleMoves) == b[f1 := m2][f2 := m1]
  {
    var f1, f2 := FieldOf(b, m1).value, FieldOf(b, m2).value;
    var mms := SwitchOf(player, card, b, m1, m2).marbleMoves;
    assert f1 != f2;
    var b1 := Put(b, m1, f2).0;
    assert b1 == (b - {f1})[f2 := m1];
    assert FieldOf(b1, m2).None? by {
      forall k | k in b1
        ensures b1[k] != m2
      {
        if k != f2 {
          assert b[k] == b1[k];
          FieldOfOnInjective(b, k);
        }
      }
    }
    var b2 := Put(b1, m2, f1).0;
    assert b2 == b1[f1 := m2];
    assert ApplyMarbleMoves(b, mms) == ApplyMarbleMoves(ApplyHits(b1, []), mms[1..]);
    assert ApplyMarbleMoves(b1, mms[1..]) == ApplyMarbleMoves(ApplyHits(b2, []), []);
    assert b2 == b[f1 := m2][f2 := m1];
  }

  // ---------------------------------------------------------------- split

  /** The copy of the board a split works on after moving its first
      marble: m on `to`, and the marble it hit on the first free wait field
      of its colour (off the board when the pen is full). */
  function AfterMove(b: Board, m: Marble, to: Field): (c: Board)
    ensures Injective(b) ==> Injective(c) && to in c && c[to] == m && FieldOf(c, m) == Some(to)
  {
    var (c1, hit) := Put(b, m, to);
    if hit.None? then c1
    else
      match EmptyWaitField(Keezen, hit.value.color, c1)
      case Some(w) => Put(c1, hit.value, w).0
      case None => c1
  }

  /** The board the split evaluates its second marble on is the board the
      first marble move leaves when it is played with its hits, as long as
      the first marble really moves and does not leave a wait field. */
  lemma AfterMoveIsPlay(b: Board, m: Marble, to: Field, steps: seq<Field>)
    requires FieldOf(b, m) != Some(to)
    requires FieldOf(b, m).Some? ==> Kind(Keezen, FieldOf(b, m).value) != Wait
    ensures AfterMove(b, m, to) == ApplyMarbleMoves(b, [MarbleMove(m, FieldOf(b, m), to, steps, Hits(to, b))])
  {
    var c1 := Put(b, m, to).0;
    var mm := MarbleMove(m, FieldOf(b, m), to, steps, Hits(to, b));
    assert ApplyMarbleMoves(b, [mm]) == ApplyHits(c1, mm.hits);
    if to in b {
      var h := b[to];
      PutKeepsPens(b, m, to, h.color);
      var e := EmptyWaitField(Keezen, h.color, b);
      assert ApplyHits(c1, mm.hits) == ApplyHits(if e.Some? then Put(c1, h, e.value).0 else c1, []);
    }
  }

  /** Moving a marble that is not in a pen onto a field that is occupied
      or not in a pen leaves every pen as it was. */
  lemma PutKeepsPens(b: Board, m: Marble, to: Field, col: Color)
    requires FieldOf(b, m) != Some(to)
    requires FieldOf(b, m).Some? ==> Kind(Keezen, FieldOf(b, m).value) != Wait
    requires to in b || Kind(Keezen, to) != Wait
    ensures EmptyWaitField(Keezen, col, Put(b, m, to).0) == EmptyWaitField(Keezen, col, b)
  {
    var c1 := Put(b, m, to).0;
    forall i | 0 <= i < 4
      ensures WaitField(Keezen, col, i) in c1 <==> WaitField(Keezen, col, i) in b
    {
      var w := WaitField(Keezen, col, i);
      assert Some(w) != FieldOf(b, m);
      if w == to {
        assert w in c1;
      }
    }
    SamePens(b, c1, col);
  }

  lemma SamePens(b: Board, c: Board, col: Color)
    requires forall i :: 0 <= i < 4 ==> (WaitField(Keezen, col, i) in c <==> WaitField(Keezen, col, i) in b)
    ensures EmptyWaitField(Keezen, col, c) == EmptyWaitField(Keezen, col, b)
  {
    assert WaitField(Keezen, col, 0) in c <==> WaitField(Keezen, col, 0) in b;
    assert WaitField(Keezen, col, 1) in c <==> WaitField(Keezen, col, 1) in b;
    assert WaitField(Keezen, col, 2) in c <==> WaitField(Keezen, col, 2) in b;
    assert WaitField(Keezen, col, 3) in c <==> WaitField(Keezen, col, 3) in b;
  }

  /** The first home field of colour c among fs. */
  function FirstHomeOf(fs: seq<Field>, c: Color): (r: Option<Field>)
    ensures r.Some? ==> r.value in fs && Kind(Keezen, r.value) == Home && ColorOf(Keezen, r.value) == c
    ensures r.None? <==> forall x :: x in fs ==> !(Kind(Keezen, x) == Home && ColorOf(Keezen, x) == c)
    decreases |fs|
  {
    if |fs| == 0 then None
    else if Kind(Keezen, fs[0]) == Home && ColorOf(Keezen, fs[0]) == c then Some(fs[0])
    else
      assert forall x :: x in fs <==> x == fs[0] || x in fs[1..];
      FirstHomeOf(fs[1..], c)
  }

  /** Where a marble stopped: the end of its path, or its own field for
      an empty path. */
  function StopField(m: Marble, path: seq<Field>, b: Board): Option<Field>
  {
    if path != [] then Some(Last(path)) else FieldOf(b, m)
  }

  /** h is the home field of m's colour that follows the field m stopped
      on (there is at most one). */
  predicate OwnHomeAfter(m: Marble, path: seq<Field>, b: Board, h: Field)
  {
    StopField(m, path, b).Some? && h in NextFields(Keezen, StopField(m, path, b).value)
    && Kind(Keezen, h) == Home && ColorOf(Keezen, h) == m.color
  }

  /** `_is_blocked_by_own_marble`: the marble (if any) on the home field
      of m's colour right after the field m stopped on. The source reads
      the next fields of m's field; a marble off the board would raise
      there and is taken as not blocked. */
  function BlockedByOwnMarble(m: Marble, path: seq<Field>, b: Board): (r: Option<Marble>)
    ensures r.Some? ==> StopField(m, path, b).Some?
    ensures r.Some? ==> exists h :: h in b && b[h] == r.value && h in NextFields(Keezen, StopField(m, path, b).value)
                                  && Kind(Keezen, h) == Home && ColorOf(Keezen, h) == m.color
    ensures forall h :: OwnHomeAfter(m, path, b, h) ==> r == MarbleAt(b, h)
    ensures r.None? <==> forall h :: OwnHomeAfter(m, path, b, h) ==> h !in b
  {
    match StopField(m, path, b)
    case None => None
    case Some(last) =>
      match FirstHomeOf(NextFields(Keezen, last), m.color)
      case None => None
      case Some(h) => MarbleAt(b, h)
  }

  /** On a well-formed board the marble blocking m's path is never m
      itself: inside the home spur m's path only goes deeper. */
  lemma BlockerIsOther(m: Marble, len: nat, b: Board)
    ensures var r := BlockedByOwnMarble(m, PathForMarble(m, len, b, true), b);
            WellFormed(Keezen, b) && r.Some? ==> r.value != m
  {
    var p := PathForMarble(m, len, b, true);
    var r := BlockedByOwnMarble(m, p, b);
    if WellFormed(Keezen, b) && r.Some? {
      var last := StopField(m, p, b).value;
      var h := FirstHomeOf(NextFields(Keezen, last), m.color).value;
      FieldOfOnInjective(b, h);
      match FieldOf(b, m)
      case None =>
      case Some(f) =>
        if Kind(Keezen, f) == Home {
          HomeNext(f);
          if p != [] {
            assert p == PathForColor(DefaultFlags, m.color, f, len, b, true);
            assert p[0] in NextFields(Keezen, At(f, p, 0));
            PathOnBoard(DefaultFlags, m.color, f, len, b, true);
            if |p| > 1 {
              ForwardPathHomeIsOneWay(DefaultFlags, m.color, f, len, b, true, 0, |p| - 1);
            }
            HomeNext(Last(p));
          }
        }
    }
  }

  /** Whether a marble move walks a non-empty path from the field its
      marble stands on to the path's end. */
  predicate Leg(b: Board, mm: MarbleMove)
  {
    mm.steps != [] && mm.to == Last(mm.steps) && mm.from == FieldOf(b, mm.marble)
  }

  /** What every split move is: the player's seven, moving one or two
      marbles along non-empty paths of seven steps in all. */
  predicate SplitShape(player: nat, card: Card, b: Board, mv: Move)
  {
    && mv.kind == SplitMove && mv.player == player && mv.cards == [card]
    && var mms := mv.marbleMoves;
    || (|mms| == 1 && Leg(b, mms[0]) && |mms[0].steps| == 7)
    || (|mms| == 2 && Leg(b, mms[0]) && Leg(b, mms[1]) && |mms[0].steps| + |mms[1].steps| == 7)
  }

  /** A split over two marbles: m1 along p1 with hits h1, then m2 along
      p2 with hits h2, each from the field it stands on. */
  function TwoLegs(player: nat, card: Card, b: Board, m1: Marble, p1: seq<Field>, h1: seq<HitMove>,
                   m2: Marble, p2: seq<Field>, h2: seq<HitMove>): (mv: Move)
    requires p1 != [] && p2 != [] && |p1| + |p2| == 7
    ensures SplitShape(player, card, b, mv) && |mv.marbleMoves| == 2
    ensures mv.marbleMoves[0].marble == m1 && mv.marbleMoves[0].steps == p1 && mv.marbleMoves[0].hits == h1
    ensures mv.marbleMoves[1].marble == m2 && mv.marbleMoves[1].steps == p2 && mv.marbleMoves[1].hits == h2
  {
    Move(SplitMove, player, [card], [MarbleMove(m1, FieldOf(b, m1), Last(p1), p1, h1), MarbleMove(m2, FieldOf(b, m2), Last(p2), p2, h2)])
  }

  /** All seven steps with marble m. */
  function SplitSingle(player: nat, card: Card, b: Board, m: Marble): (r: Option<Move>)
    ensures r.Some? <==> PathForMarble(m, 7, b, false) != []
    ensures r.Some? ==> SplitShape(player, card, b, r.value) && |r.value.marbleMoves| == 1
    ensures r.Some? ==> var mm := r.value.marbleMoves[0];
                        mm.marble == m && mm.hits == Hits(mm.to, b)
  {
    var p := PathForMarble(m, 7, b, false);
    if p == [] then None
    else Some(Move(SplitMove, player, [card], [MarbleMove(m, FieldOf(b, m), Last(p), p, Hits(Last(p), b))]))
  }

  /** len steps with m, which can walk all of them, then the rest with
      another own marble x on the board that move leaves. */
  function SplitPair(player: nat, card: Card, b: Board, m: Marble, len: nat, x: Marble): (r: Option<Move>)
    requires 4 <= len <= 6
    ensures r.Some? ==> |PathForMarble(m, len, b, true)| == len
    ensures r.Some? ==> SplitShape(player, card, b, r.value) && |r.value.marbleMoves| == 2
    ensures r.Some? ==>
              var mms := r.value.marbleMoves;
              && mms[0].marble == m && mms[1].marble == x && x.color == m.color && x != m
              && |mms[0].steps| == len && mms[0].steps == PathForMarble(m, len, b, true)
  {
    var p := PathForMarble(m, len, b, true);
    if |p| != len then None
    else PairAfter(player, card, b, m, p, x)
  }

  /** The second half of a pair split once m has walked p. */
  function PairAfter(player: nat, card: Card, b: Board, m: Marble, p: seq<Field>, x: Marble): (r: Option<Move>)
    requires 4 <= |p| <= 6
    ensures r.Some? ==> SplitShape(player, card, b, r.value) && |r.value.marbleMoves| == 2
    ensures r.Some? ==>
              var mms := r.value.marbleMoves;
              mms[0].marble == m && mms[1].marble == x && x.color == m.color && x != m && mms[0].steps == p
  {
    var to := Last(p);
    var hit := Put(b, m, to).1;
    if x.color != m.color || x == m || hit == Some(x) then None
    else
      var c := AfterMove(b, m, to);
      var p2 := PathForMarble(x, 7 - |p|, c, false);
      if p2 == [] then None
      else Some(TwoLegs(player, card, b, m, p, Hits(to, b), x, p2, Hits(Last(p2), c)))
  }

  /** The second marble of a pair split walks, and hits, on the board the
      first marble's move leaves. */
  lemma SplitPairLegs(player: nat, card: Card, b: Board, m: Marble, len: nat, x: Marble)
    requires 4 <= len <= 6 && SplitPair(player, card, b, m, len, x).Some?
    ensures var mms := SplitPair(player, card, b, m, len, x).value.marbleMoves;
            var c := AfterMove(b, m, mms[0].to);
            && Put(b, m, mms[0].to).1 != Some(x)
            && mms[0].hits == Hits(mms[0].to, b)
            && mms[1].steps == PathForMarble(x, 7 - len, c, false) && mms[1].hits == Hits(mms[1].to, c)
  {
  }

  /** m cannot walk len steps because an own marble blocks it in the home
      spur: that marble goes first with the other 7 - len steps, then m. */
  function SplitBlocked(player: nat, card: Card, b: Board, m: Marble, len: nat): (r: Option<Move>)
    requires 4 <= len <= 6
    ensures r.Some? ==> |PathForMarble(m, len, b, true)| < len
    ensures r.Some? ==> SplitShape(player, card, b, r.value) && |r.value.marbleMoves| == 2
    ensures r.Some? ==>
              var mms := r.value.marbleMoves;
              && Some(mms[0].marble) == BlockedByOwnMarble(m, PathForMarble(m, len, b, true), b)
              && mms[1].marble == m && |mms[1].steps| == len
    ensures r.Some? && WellFormed(Keezen, b) ==> r.value.marbleMoves[0].marble != m
  {
    var p := PathForMarble(m, len, b, true);
    BlockerIsOther(m, len, b);
    if |p| == len then None
    else
      match BlockedByOwnMarble(m, p, b)
      case None => None
      case Some(bm) =>
        var pb := PathForMarble(bm, 7 - len, b, false);
        if pb == [] then None
        else
          var c := AfterMove(b, bm, Last(pb));
          var p2 := PathForMarble(m, len, c, false);
          if p2 == [] then None
          else
            Some(TwoLegs(player, card, b, bm, pb, Hits(Last(pb), b), m, p2, Hits(Last(p2), c)))
  }

  /** The blocking marble goes first; m then walks, and hits, on the
      board that move leaves. */
  lemma SplitBlockedLegs(player: nat, card: Card, b: Board, m: Marble, len: nat)
    requires 4 <= len <= 6 && SplitBlocked(player, card, b, m, len).Some?
    ensures var mms := SplitBlocked(player, card, b, m, len).value.marbleMoves;
            var c := AfterMove(b, mms[0].marble, mms[0].to);
            && mms[0].steps == PathForMarble(mms[0].marble, 7 - len, b, false)
            && mms[0].hits == Hits(mms[0].to, b)
            && mms[1].steps == PathForMarble(m, len, c, false) && mms[1].hits == Hits(mms[1].to, c)
  {
  }

  /** The candidates the source's loops try for each marble m of pw:
      all seven steps with m; for len in 4, 5, 6, len steps with m and
      the rest with each own marble x in turn, or, when m cannot walk len
      steps, the blocking marble first. */
  datatype SplitChoice = AllSeven(m: Marble) | Pair(m: Marble, len: nat, x: Marble) | Blocked(m: Marble, len: nat)

  /** The candidates for pw, in the order the loops try them. */
  ghost predicate ValidChoice(pw: Color, c: SplitChoice)
  {
    && c.m.color == pw
    && (!c.AllSeven? ==> 4 <= c.len <= 6)
    && (c.Pair? ==> c.x.color == pw)
  }

  function LenChoices(m: Marble, len: nat): (r: seq<SplitChoice>)
    ensures forall c: SplitChoice :: c in r <==> (c.Pair? && c.m == m && c.len == len && c.x.color == m.color) || c == Blocked(m, len)
  {
    var pairs := seq(4, i requires 0 <= i < 4 => Pair(m, len, Marble(m.color, i)));
    assert forall c: SplitChoice :: c.Pair? && c.m == m && c.len == len && c.x.color == m.color ==> c == pairs[c.x.idx];
    pairs + [Blocked(m, len)]
  }

  function ChoicesFor(m: Marble): (r: seq<SplitChoice>)
    ensures forall c: SplitChoice :: c in r <==> c.m == m && ValidChoice(m.color, c)
  {
    [AllSeven(m)] + LenChoices(m, 4) + LenChoices(m, 5) + LenChoices(m, 6)
  }

  function Choices(pw: Color): (r: seq<SplitChoice>)
    ensures forall c: SplitChoice :: c in r <==> ValidChoice(pw, c)
  {
    var f := (m: Marble) => ChoicesFor(m);
    var r := FlatMap(f, MarblesWithColor(pw));
    ChoicesCollected(pw, f, r);
    r
  }

  lemma ChoicesCollected(pw: Color, f: Marble -> seq<SplitChoice>, r: seq<SplitChoice>)
    requires forall m :: f(m) == ChoicesFor(m)
    requires forall c: SplitChoice :: c in r <==> exists m :: m in MarblesWithColor(pw) && c in f(m)
    ensures forall c: SplitChoice :: c in r <==> ValidChoice(pw, c)
  {
    forall c | ValidChoice(pw, c)
      ensures c in r
    {
      assert c.m in MarblesWithColor(pw) && c in f(c.m);
    }
  }

  /** The split move a candidate yields, if any. */
  function Choose(player: nat, card: Card, b: Board, c: SplitChoice): (r: Option<Move>)
  {
    match c
    case AllSeven(m) => SplitSingle(player, card, b, m)
    case Pair(m, len, x) => if 4 <= len <= 6 then SplitPair(player, card, b, m, len, x) else None
    case Blocked(m, len) => if 4 <= len <= 6 then SplitBlocked(player, card, b, m, len) else None
  }

  /** A candidate's move is a split of seven; the last marble to move is
      always of the candidate's colour, and on a well-formed board the two
      marbles differ. */
  lemma ChooseShape(player: nat, card: Card, b: Board, c: SplitChoice)
    requires Choose(player, card, b, c).Some?
    ensures var mv := Choose(player, card, b, c).value;
            && SplitShape(player, card, b, mv)
            && |mv.marbleMoves| > 0 && mv.marbleMoves[|mv.marbleMoves| - 1].marble.color == c.m.color
            && (|mv.marbleMoves| == 2 && WellFormed(Keezen, b) ==> mv.marbleMoves[0].marble != mv.marbleMoves[1].marble)
  {
    match c
    case AllSeven(m) =>
    case Pair(m, len, x) =>
    case Blocked(m, len) =>
  }

  /** At most one of the two orders is tried for a length: pairs when m
      can walk len steps, the blocked order when it cannot. */
  lemma PairOrBlocked(player: nat, card: Card, b: Board, m: Marble, len: nat, x: Marble)
    requires 4 <= len <= 6
    ensures !(SplitPair(player, card, b, m, len, x).Some? && SplitBlocked(player, card, b, m, len).Some?)
  {
  }

  /** The split moves of pw's own marbles: every one a candidate yields,
      and nothing else. */
  function MainSplits(player: nat, pw: Color, card: Card, b: Board): (r: seq<Move>)
    ensures forall mv :: mv in r ==> exists c: SplitChoice :: ValidChoice(pw, c) && Choose(player, card, b, c) == Some(mv)
    ensures forall c: SplitChoice :: ValidChoice(pw, c) && Choose(player, card, b, c).Some? ==> Choose(player, card, b, c).value in r
    ensures forall mv :: mv in r ==>
              && SplitShape(player, card, b, mv)
              && mv.marbleMoves[|mv.marbleMoves| - 1].marble.color == pw
              && (|mv.marbleMoves| == 2 && WellFormed(Keezen, b) ==> mv.marbleMoves[0].marble != mv.marbleMoves[1].marble)
  {
    var cs := Choices(pw);
    var f := (c: SplitChoice) => Choose(player, card, b, c);
    var r := Collect(f, cs);
    MainCollected(player, pw, card, b, cs, f, r);
    r
  }

  lemma MainCollected(player: nat, pw: Color, card: Card, b: Board, cs: seq<SplitChoice>,
                      f: SplitChoice -> Option<Move>, r: seq<Move>)
    requires forall c: SplitChoice :: c in cs <==> ValidChoice(pw, c)
    requires forall c: SplitChoice :: f(c) == Choose(player, card, b, c)
    requires forall mv :: mv in r ==> exists c: SplitChoice :: c in cs && f(c) == Some(mv)
    requires forall c: SplitChoice :: c in cs && f(c).Some? ==> f(c).value in r
    ensures forall mv :: mv in r ==> exists c: SplitChoice :: ValidChoice(pw, c) && Choose(player, card, b, c) == Some(mv)
    ensures forall c: SplitChoice :: ValidChoice(pw, c) && Choose(player, card, b, c).Some? ==> Choose(player, card, b, c).value in r
    ensures forall mv :: mv in r ==>
              && SplitShape(player, card, b, mv)
              && mv.marbleMoves[|mv.marbleMoves| - 1].marble.color == pw
              && (|mv.marbleMoves| == 2 && WellFormed(Keezen, b) ==> mv.marbleMoves[0].marble != mv.marbleMoves[1].marble)
  {
    forall mv | mv in r
      ensures exists c: SplitChoice :: ValidChoice(pw, c) && Choose(player, card, b, c) == Some(mv)
      ensures
              && SplitShape(player, card, b, mv)
              && mv.marbleMoves[|mv.marbleMoves| - 1].marble.color == pw
              && (|mv.marbleMoves| == 2 && WellFormed(Keezen, b) ==> mv.marbleMoves[0].marble != mv.marbleMoves[1].marble)
    {
      var c: SplitChoice :| c in cs && f(c) == Some(mv);
      ChosenShape(player, pw, card, b, c, mv);
    }
  }

  /** What a valid candidate's move looks like. */
  lemma ChosenShape(player: nat, pw: Color, card: Card, b: Board, c: SplitChoice, mv: Move)
    requires ValidChoice(pw, c) && Choose(player, card, b, c) == Some(mv)
    ensures SplitShape(player, card, b, mv)
    ensures mv.marbleMoves[|mv.marbleMoves| - 1].marble.color == pw
    ensures |mv.marbleMoves| == 2 && WellFormed(Keezen, b) ==> mv.marbleMoves[0].marble != mv.marbleMoves[1].marble
  {
    ChooseShape(player, card, b, c);
  }

  /** The summed lengths of the short three-step paths of ms: zero
      exactly when none of them can move at all. */
  function HomeMobility(ms: seq<Marble>, b: Board): (r: nat)
    ensures r == 0 <==> forall x :: x in ms ==> PathForMarble(x, 3, b, true) == []
    decreases |ms|
  {
    if |ms| == 0 then 0
    else
      assert forall x :: x in ms <==> x == ms[0] || x in ms[1..];
      |PathForMarble(ms[0], 3, b, true)| + HomeMobility(ms[1..], b)
  }

  /** The first marble of pw from index i on that is not at home. */
  function FirstAway(pw: Color, b: Board, i: nat): (r: Option<Marble>)
    requires i <= 4
    ensures r.Some? ==> r.value.color == pw && i <= r.value.idx && !OnKind(Keezen, b, r.value, Home)
    ensures r.Some? ==> forall j :: i <= j < r.value.idx ==> OnKind(Keezen, b, Marble(pw, j), Home)
    ensures r.None? <==> forall j :: i <= j < 4 ==> OnKind(Keezen, b, Marble(pw, j), Home)
    decreases 4 - i
  {
    if i == 4 then None
    else if !OnKind(Keezen, b, Marble(pw, i), Home) then Some(Marble(pw, i))
    else FirstAway(pw, b, i + 1)
  }

  /** The marble that would finish pw's colour and the path that takes
      it home: the lowest marble of pw not at home, if its short path of
      six steps ends on a home field. */
  function CarryLead(pw: Color, b: Board): (r: Option<(Marble, seq<Field>)>)
    ensures r.Some? ==>
              var (f, fp) := r.value;
              && f.color == pw && !OnKind(Keezen, b, f, Home)
              && (forall j :: 0 <= j < f.idx ==> OnKind(Keezen, b, Marble(pw, j), Home))
              && fp == PathForMarble(f, 6, b, true) && 1 <= |fp| <= 6 && Kind(Keezen, Last(fp)) == Home
  {
    match FirstAway(pw, b, 0)
    case None => None
    case Some(f) =>
      var fp := PathForMarble(f, 6, b, true);
      if fp != [] && Kind(Keezen, Last(fp)) == Home then Some((f, fp)) else None
  }

  /** The lead marble home along fp without hits, then the rest of the
      seven with the team mate's marble tm. The team mate's hits are taken
      on the board the first leg leaves, as in every other split of two
      marbles. */
  function CarryFor(player: nat, card: Card, b: Board, f: Marble, fp: seq<Field>, tm: Marble): (r: Option<Move>)
    requires 1 <= |fp| <= 6
    ensures r.Some? <==> PathForMarble(tm, 7 - |fp|, b, false) != []
    ensures r.Some? ==> |r.value.marbleMoves| == 2 && r.value.marbleMoves[1].marble == tm
    ensures r.Some? ==>
              var mms := r.value.marbleMoves;
              mms[1].hits == Hits(mms[1].to, ApplyMarbleMoves(b, [mms[0]]))
  {
    var p2 := PathForMarble(tm, 7 - |fp|, b, false);
    if p2 == [] then None
    else
      var first := MarbleMove(f, FieldOf(b, f), Last(fp), fp, []);
      Some(TwoLegs(player, card, b, f, fp, [], tm, p2, Hits(Last(p2), ApplyMarbleMoves(b, [first]))))
  }

  /** The carry-over as cardop.py writes it: the team mate's hits are
      taken on the board before the split, where the lead marble still
      stands on its old field. */
  function CarryForAsWritten(player: nat, card: Card, b: Board, f: Marble, fp: seq<Field>, tm: Marble): (r: Option<Move>)
    requires 1 <= |fp| <= 6
    ensures r.Some? <==> PathForMarble(tm, 7 - |fp|, b, false) != []
    ensures r.Some? ==>
              var mms := r.value.marbleMoves;
              && |mms| == 2 && mms[0].marble == f && mms[0].hits == [] && mms[1].marble == tm
              && mms[1].hits == Hits(mms[1].to, b)
  {
    var p2 := PathForMarble(tm, 7 - |fp|, b, false);
    if p2 == [] then None
    else Some(TwoLegs(player, card, b, f, fp, [], tm, p2, Hits(Last(p2), b)))
  }

  /** The corrected and the as-written carry-over differ only in the hits
      of the team mate's leg: both exist for the same team-mate marbles,
      and the move, its first leg and the rest of its second leg agree. */
  lemma CarryForVsAsWritten(player: nat, card: Card, b: Board, f: Marble, fp: seq<Field>, tm: Marble)
    requires 1 <= |fp| <= 6
    ensures CarryFor(player, card, b, f, fp, tm).Some? <==> CarryForAsWritten(player, card, b, f, fp, tm).Some?
    ensures CarryFor(player, card, b, f, fp, tm).Some? ==>
              var c := CarryFor(player, card, b, f, fp, tm).value;
              var a := CarryForAsWritten(player, card, b, f, fp, tm).value;
              && a.kind == c.kind && a.player == c.player && a.cards == c.cards
              && |a.marbleMoves| == 2 && |c.marbleMoves| == 2
              && a.marbleMoves[0] == c.marbleMoves[0]
              && a.marbleMoves[1].(hits := []) == c.marbleMoves[1].(hits := [])
  {
  }

  /** The split that finishes the player's own colour and spends the rest
      of the seven on the teammate's marbles: only for a player still
      playing their own colour with three marbles home that cannot move. */
  function CarryOver(player: nat, pw: Color, card: Card, b: Board): (r: seq<Move>)
    ensures r != [] ==> player == pw && |MarblesAtHome(Keezen, pw, b)| == 3 && CarryLead(pw, b).Some?
    ensures r != [] ==> forall x :: x in MarblesAtHome(Keezen, pw, b) ==> PathForMarble(x, 3, b, true) == []
    ensures forall mv :: mv in r ==>
              CarryLead(pw, b).Some? &&
              exists tm: Marble :: tm.color == PartnerSeat(pw) &&
                CarryFor(player, card, b, CarryLead(pw, b).value.0, CarryLead(pw, b).value.1, tm) == Some(mv)
    ensures player == pw && |MarblesAtHome(Keezen, pw, b)| == 3 && HomeMobility(MarblesAtHome(Keezen, pw, b), b) == 0 &&
            CarryLead(pw, b).Some? ==>
              forall tm: Marble ::
                (tm.color == PartnerSeat(pw) &&
                 CarryFor(player, card, b, CarryLead(pw, b).value.0, CarryLead(pw, b).value.1, tm).Some?) ==>
                  CarryFor(player, card, b, CarryLead(pw, b).value.0, CarryLead(pw, b).value.1, tm).value in r
  {
    var home := MarblesAtHome(Keezen, pw, b);
    if player != pw || |home| != 3 || HomeMobility(home, b) != 0 then []
    else
      match CarryLead(pw, b)
      case None => []
      case Some((f, fp)) =>
        var g := (tm: Marble) => CarryFor(player, card, b, f, fp, tm);
        var r := Collect(g, MarblesWithColor(PartnerSeat(pw)));
        CarryCollected(player, pw, card, b, f, fp, g, r);
        r
  }

  lemma CarryCollected(player: nat, pw: Color, card: Card, b: Board, f: Marble, fp: seq<Field>,
                       g: Marble -> Option<Move>, r: seq<Move>)
    requires 1 <= |fp| <= 6
    requires forall tm :: g(tm) == CarryFor(player, card, b, f, fp, tm)
    requires forall mv :: mv in r ==> exists tm :: tm in MarblesWithColor(PartnerSeat(pw)) && g(tm) == Some(mv)
    requires forall tm :: tm in MarblesWithColor(PartnerSeat(pw)) && g(tm).Some? ==> g(tm).value in r
    ensures forall mv :: mv in r ==> exists tm: Marble :: tm.color == PartnerSeat(pw) && CarryFor(player, card, b, f, fp, tm) == Some(mv)
    ensures forall tm: Marble :: tm.color == PartnerSeat(pw) && CarryFor(player, card, b, f, fp, tm).Some? ==>
              CarryFor(player, card, b, f, fp, tm).value in r
  {
    forall mv | mv in r
      ensures exists tm: Marble :: tm.color == PartnerSeat(pw) && CarryFor(player, card, b, f, fp, tm) == Some(mv)
    {
      var tm :| tm in MarblesWithColor(PartnerSeat(pw)) && g(tm) == Some(mv);
    }
  }

  /** Every carry-over move has the split shape: the lead marble of pw
      walks into its home spur without hits, and a marble of the
      teammate's colour walks the rest. */
  lemma CarryOverShape(player: nat, pw: Color, card: Card, b: Board, mv: Move)
    requires mv in CarryOver(player, pw, card, b)
    ensures SplitShape(player, card, b, mv) && |mv.marbleMoves| == 2
    ensures mv.marbleMoves[0].marble.color == pw && mv.marbleMoves[1].marble.color == PartnerSeat(pw)
    ensures Kind(Keezen, mv.marbleMoves[0].to) == Home && mv.marbleMoves[0].hits == []
    ensures mv.marbleMoves[1].hits == Hits(mv.marbleMoves[1].to, ApplyMarbleMoves(b, [mv.marbleMoves[0]]))
  {
    var (f, fp) := CarryLead(pw, b).value;
    var tm: Marble :| tm.color == PartnerSeat(pw) && CarryFor(player, card, b, f, fp, tm) == Some(mv);
  }

  /** `CardOpSplitTwoMarbles.get_moves`: the splits of pw's own marbles,
      or the carry-over to the teammate's marbles when there are none. */
  function SplitMoves(player: nat, pw: Color, card: Card, b: Board): (r: seq<Move>)
    ensures forall mv :: mv in r ==> mv.kind == SplitMove && mv.player == player && mv.cards == [card]
  {
    var main := MainSplits(player, pw, card, b);
    CarryFacts(player, pw, card, b);
    if main != [] then main else CarryOver(player, pw, card, b)
  }

  /** Every split move is a seven over one or two marbles, distinct ones
      on a well-formed board. */
  lemma SplitMovesShape(player: nat, pw: Color, card: Card, b: Board)
    ensures forall mv :: mv in SplitMoves(player, pw, card, b) ==> SplitShape(player, card, b, mv)
    ensures WellFormed(Keezen, b) ==>
              forall mv :: mv in SplitMoves(player, pw, card, b) && |mv.marbleMoves| == 2 ==>
                mv.marbleMoves[0].marble != mv.marbleMoves[1].marble
  {
    CarryFacts(player, pw, card, b);
  }

  /** Every split of pw's own marbles is offered, and a carry-over only
      when there is none. */
  lemma SplitMovesSpec(player: nat, pw: Color, card: Card, b: Board)
    // every split of an own marble is offered ...
    ensures forall c: SplitChoice :: ValidChoice(pw, c) && Choose(player, card, b, c).Some? ==>
              Choose(player, card, b, c).value in SplitMoves(player, pw, card, b)
    // ... and anything else is a carry-over, offered only when there is none
    ensures forall mv :: mv in SplitMoves(player, pw, card, b) ==>
              (exists c: SplitChoice :: ValidChoice(pw, c) && Choose(player, card, b, c) == Some(mv)) ||
              (MainSplits(player, pw, card, b) == [] && mv in CarryOver(player, pw, card, b))
    ensures forall mv :: mv in SplitMoves(player, pw, card, b) && |mv.marbleMoves| == 2 && mv.marbleMoves[1].marble.color != pw ==>
              player == pw && MainSplits(player, pw, card, b) == []
  {
    CarryFacts(player, pw, card, b);
  }

  lemma CarryFacts(player: nat, pw: Color, card: Card, b: Board)
    ensures forall mv :: mv in CarryOver(player, pw, card, b) ==>
              && SplitShape(player, card, b, mv) && |mv.marbleMoves| == 2
              && mv.marbleMoves[0].marble.color == pw && mv.marbleMoves[1].marble.color != pw
              && player == pw
  {
    forall mv | mv in CarryOver(player, pw, card, b)
      ensures && SplitShape(player, card, b, mv) && |mv.marbleMoves| == 2
              && mv.marbleMoves[0].marble.color == pw && mv.marbleMoves[1].marble.color != pw
              && player == pw
    {
      CarryOverShape(player, pw, card, b, mv);
    }
  }
}
