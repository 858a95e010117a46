/** The Keezen board invariant: every move `get_allowed_moves` offers
    keeps the board well formed and keeps every home spur to marbles of
    its own colour. The one exception is the carry-over split as
    keezen/cardop.py writes it; `CardOps.CarryFor` is the corrected
    definition the game uses, and `CarryOverCase` exhibits the board
    where the two differ. */
module KeezenBoard {
  import opened Common
  import opened Layout
  import opened BoardState
  import opened Paths
  import opened KeezenPaths
  import opened Cards
  import opened Rules
  import opened Moves
  import opened CardOps
  import opened Seats
  import opened KeezenGame

  /** A home field only ever holds a marble of its own colour. */
  ghost predicate HomesOwned(b: Board)
  {
    forall f :: f in b && Kind(Keezen, f) == Home ==> b[f].color == ColorOf(Keezen, f)
  }

  /** The Keezen board invariant. */
  ghost predicate GoodBoard(b: Board)
  {
    WellFormed(Keezen, b) && HomesOwned(b)
  }

  /** The board at the start of a game holds the invariant: every marble
      waits in its pen. */
  lemma InitialBoardGood()
    ensures GoodBoard(InitialBoard(Keezen))
  {
    var b := InitialBoard(Keezen);
    forall f | f in b
      ensures Kind(Keezen, f) == Wait
    {
    }
  }

  // ------------------------------------------------------ single moves

  /** A next or previous field is never a wait field. */
  lemma NeighbourNotWait(f: Field, x: Field)
    requires IsField(Keezen, f)
    requires x in NextFields(Keezen, f) || x in PrevFields(Keezen, f)
    ensures IsField(Keezen, x) && Kind(Keezen, x) != Wait
  {
    NeighboursAreFields(Keezen, f);
    FieldParts(Keezen, f);
    var k, i := Block(Keezen, f), Index(Keezen, f);
    if i == 4 {
      Decompose(Keezen, k, 5);
      Decompose(Keezen, k, 3);
      if k == 0 {
        Decompose(Keezen, 3, 19);
      } else {
        Decompose(Keezen, k - 1, 19);
      }
    } else if i == 19 {
      Decompose(Keezen, k, 18);
      if k == 3 {
        Decompose(Keezen, 0, 4);
      } else {
        Decompose(Keezen, k + 1, 4);
      }
    } else if i < 19 {
      Decompose(Keezen, k, i + 1);
      if i > 0 {
        Decompose(Keezen, k, i - 1);
      }
    }
  }

  /** Where a marble's path of fewer than 64 steps ends: on a field
      outside the pens, other than the marble's own, and, when on a home
      field, on one of the marble's colour. The marble itself is not in a
      pen. */
  lemma PathEnd(m: Marble, n: int, b: Board, short: bool)
    requires Abs(n) < 64 && PathForMarble(m, n, b, short) != []
    ensures var p := PathForMarble(m, n, b, short);
            && FieldOf(b, m).Some? && FieldOf(b, m) != Some(Last(p))
            && Kind(Keezen, FieldOf(b, m).value) != Wait
            && IsField(Keezen, Last(p)) && Kind(Keezen, Last(p)) != Wait
            && (Kind(Keezen, Last(p)) == Home ==> ColorOf(Keezen, Last(p)) == m.color)
  {
    var f := FieldOf(b, m).value;
    assert PathForMarble(m, n, b, short) == PathForColor(DefaultFlags, m.color, f, n, b, short);
    PathEndField(m.color, f, n, b, short);
  }

  /** The same for a path from a field. */
  lemma PathEndField(c: Color, f: Field, n: int, b: Board, short: bool)
    requires IsField(Keezen, f) && Abs(n) < 64 && PathForColor(DefaultFlags, c, f, n, b, short) != []
    ensures var p := PathForColor(DefaultFlags, c, f, n, b, short);
            && Last(p) != f && Kind(Keezen, f) != Wait
            && IsField(Keezen, Last(p)) && Kind(Keezen, Last(p)) != Wait
            && (Kind(Keezen, Last(p)) == Home ==> ColorOf(Keezen, Last(p)) == c)
  {
    var p := PathForColor(DefaultFlags, c, f, n, b, short);
    PathLeaves(DefaultFlags, c, f, n, b, short);
    FirstHop(DefaultFlags, c, f, n, b, short);
    LastNotWait(DefaultFlags, c, f, n, b, short);
    assert Last(p) in p;
  }

  /** A path ends on a field outside the pens: it gets there by a hop. */
  lemma LastNotWait(flags: PassFlags, c: Color, f: Field, n: int, b: Board, short: bool)
    requires IsField(Keezen, f) && PathForColor(flags, c, f, n, b, short) != []
    ensures var p := PathForColor(flags, c, f, n, b, short);
            IsField(Keezen, Last(p)) && Kind(Keezen, Last(p)) != Wait
  {
    var p := PathForColor(flags, c, f, n, b, short);
    PathOnBoard(flags, c, f, n, b, short);
    var j := |p| - 1;
    var before := At(f, p, j);
    assert Last(p) in (if n < 0 then PrevFields(Keezen, before) else NextFields(Keezen, before));
    assert IsField(Keezen, before) by {
      if j > 0 {
        assert p[j - 1] in p;
      }
    }
    NeighbourNotWait(before, Last(p));
  }

  /** A marble move onto a field outside the pens, with its hits taken on
      the board it is played on, keeps the invariant: the marble stands on
      its destination, the marble it hit (if any) waits in its pen, and
      every other marble stays where it was. */
  lemma LegKeepsGood(b: Board, mm: MarbleMove)
    requires GoodBoard(b)
    requires IsField(Keezen, mm.to) && Kind(Keezen, mm.to) != Wait
    requires Kind(Keezen, mm.to) == Home ==> ColorOf(Keezen, mm.to) == mm.marble.color
    requires mm.hits == Hits(mm.to, b)
    requires mm.to in b ==> b[mm.to] != mm.marble
    ensures var b' := ApplyMarbleMoves(b, [mm]);
            && GoodBoard(b')
            && FieldOf(b', mm.marble) == Some(mm.to)
            && (mm.to in b ==> OnKind(Keezen, b', b[mm.to], Wait))
            && forall x :: x != mm.marble && (mm.to in b ==> x != b[mm.to]) ==> FieldOf(b', x) == FieldOf(b, x)
  {
    MarbleMoveKeepsBoard(Keezen, b, mm);
    var b' := ApplyMarbleMoves(b, [mm]);
    if mm.to in b {
      HitAlwaysLands(Keezen, mm.to, b);
    }
    forall f | f in b' && Kind(Keezen, f) == Home
      ensures b'[f].color == ColorOf(Keezen, f)
    {
      var x := b'[f];
      FieldOfOnInjective(b', f);
      if x != mm.marble && !(mm.to in b && x == b[mm.to]) {
        FieldOfOnInjective(b, FieldOf(b, x).value);
      }
    }
  }

  /** Playing two marble moves is playing the first, then the second on
      the board the first leaves. */
  lemma PlayTwo(b: Board, a: MarbleMove, c: MarbleMove)
    ensures ApplyMarbleMoves(b, [a, c]) == ApplyMarbleMoves(ApplyMarbleMoves(b, [a]), [c])
  {
    assert [a, c][1..] == [c];
    var b1 := ApplyHits(Put(b, a.marble, a.to).0, a.hits);
    assert ApplyMarbleMoves(b, [a]) == ApplyMarbleMoves(b1, []);
  }

  /** A marble move to the end of one of the marble's paths, computed on a
      board b0 where the marble stood where it stands on b, with its hits
      taken on b, keeps the invariant. */
  lemma PathLegKeepsGood(b0: Board, b: Board, m: Marble, n: int, short: bool, mm: MarbleMove)
    requires GoodBoard(b) && Abs(n) < 64
    requires PathForMarble(m, n, b0, short) != [] && FieldOf(b0, m) == FieldOf(b, m)
    requires mm.marble == m && mm.to == Last(PathForMarble(m, n, b0, short)) && mm.hits == Hits(mm.to, b)
    ensures var b' := ApplyMarbleMoves(b, [mm]);
            && GoodBoard(b')
            && FieldOf(b', m) == Some(mm.to)
            && forall x :: x != m && (mm.to in b ==> x != b[mm.to]) ==> FieldOf(b', x) == FieldOf(b, x)
  {
    PathEnd(m, n, b0, short);
    if mm.to in b && b[mm.to] == m {
      FieldOfOnInjective(b, mm.to);
    }
    LegKeepsGood(b, mm);
  }

  // ------------------------------------------------------ card operations

  /** A START keeps the invariant. */
  lemma StartKeepsGood(player: nat, pw: Color, card: Card, b: Board)
    requires GoodBoard(b) && |StartMoves(player, pw, card, b)| == 1
    ensures GoodBoard(ApplyMarbleMoves(b, StartMoves(player, pw, card, b)[0].marbleMoves))
  {
    var mv := StartMoves(player, pw, card, b)[0];
    var mm := mv.marbleMoves[0];
    assert mv.marbleMoves == [mm];
    if mm.to in b && b[mm.to] == mm.marble {
      FieldOfOnInjective(b, mm.to);
    }
    LegKeepsGood(b, mm);
  }

  /** A run of fewer than 64 fields keeps the invariant. */
  lemma RunKeepsGood(player: nat, card: Card, n: int, b: Board, m: Marble)
    requires GoodBoard(b) && Abs(n) < 64 && RunFor(player, card, n, b, m).Some?
    ensures GoodBoard(ApplyMarbleMoves(b, RunFor(player, card, n, b, m).value.marbleMoves))
  {
    var mm := RunFor(player, card, n, b, m).value.marbleMoves[0];
    assert RunFor(player, card, n, b, m).value.marbleMoves == [mm];
    PathLegKeepsGood(b, b, m, n, false, mm);
  }

  /** A switch keeps the invariant: the two marbles trade fields outside
      the pens and the home spurs. */
  lemma SwitchKeepsGood(player: nat, pw: Color, card: Card, b: Board, m1: Marble, m2: Marble)
    requires GoodBoard(b) && SwitchPair(pw, b, m1, m2)
    ensures GoodBoard(ApplyMarbleMoves(b, SwitchOf(player, card, b, m1, m2).marbleMoves))
  {
    SwitchExchanges(player, card, b, m1, m2);
    var f1, f2 := FieldOf(b, m1).value, FieldOf(b, m2).value;
    var b' := b[f1 := m2][f2 := m1];
    assert f1 != f2;
    forall x: Marble
      ensures FieldOf(b', x).Some?
    {
      if x == m1 {
        assert b'[f2] == x;
      } else if x == m2 {
        assert b'[f1] == x;
      } else {
        var k := FieldOf(b, x).value;
        assert k != f1 && k != f2 && b'[k] == x;
      }
    }
  }

  /** All seven steps with one marble keep the invariant. */
  lemma SingleKeepsGood(player: nat, card: Card, b: Board, m: Marble)
    requires GoodBoard(b) && SplitSingle(player, card, b, m).Some?
    ensures GoodBoard(ApplyMarbleMoves(b, SplitSingle(player, card, b, m).value.marbleMoves))
  {
    var mm := SplitSingle(player, card, b, m).value.marbleMoves[0];
    assert SplitSingle(player, card, b, m).value.marbleMoves == [mm];
    PathLegKeepsGood(b, b, m, 7, false, mm);
  }

  /** Two legs of a split, the second walking and hitting on the board the
      first leaves, keep the invariant. */
  lemma LegsKeepGood(b: Board, mm1: MarbleMove, n1: int, s1: bool, mm2: MarbleMove, n2: int)
    requires GoodBoard(b) && Abs(n1) < 64 && Abs(n2) < 64
    requires var p := PathForMarble(mm1.marble, n1, b, s1);
             p != [] && mm1 == MarbleMove(mm1.marble, FieldOf(b, mm1.marble), Last(p), mm1.steps, Hits(Last(p), b))
    requires var c := AfterMove(b, mm1.marble, mm1.to);
             var p2 := PathForMarble(mm2.marble, n2, c, false);
             p2 != [] && mm2.to == Last(p2) && mm2.hits == Hits(mm2.to, c)
    ensures GoodBoard(ApplyMarbleMoves(b, [mm1, mm2]))
  {
    PathLegKeepsGood(b, b, mm1.marble, n1, s1, mm1);
    PathEnd(mm1.marble, n1, b, s1);
    AfterMoveIsPlay(b, mm1.marble, mm1.to, mm1.steps);
    var c := AfterMove(b, mm1.marble, mm1.to);
    PathLegKeepsGood(c, c, mm2.marble, n2, false, mm2);
    PlayTwo(b, mm1, mm2);
  }

  /** A pair split keeps the invariant. */
  lemma PairKeepsGood(player: nat, card: Card, b: Board, m: Marble, len: nat, x: Marble)
    requires GoodBoard(b) && 4 <= len <= 6 && SplitPair(player, card, b, m, len, x).Some?
    ensures GoodBoard(ApplyMarbleMoves(b, SplitPair(player, card, b, m, len, x).value.marbleMoves))
  {
    var mms := SplitPair(player, card, b, m, len, x).value.marbleMoves;
    SplitPairLegs(player, card, b, m, len, x);
    assert mms == [mms[0], mms[1]];
    LegsKeepGood(b, mms[0], len, true, mms[1], 7 - len);
  }

  /** Two legs of a split, each walking its own path, the second on the
      board the first leaves, keep the invariant. */
  lemma SplitLegsKeepGood(b: Board, mm1: MarbleMove, n1: int, s1: bool, mm2: MarbleMove, n2: int)
    requires GoodBoard(b) && Abs(n1) < 64 && Abs(n2) < 64
    requires Leg(b, mm1) && mm1.steps == PathForMarble(mm1.marble, n1, b, s1) && mm1.hits == Hits(mm1.to, b)
    requires Leg(b, mm2)
    requires var c := AfterMove(b, mm1.marble, mm1.to);
             mm2.steps == PathForMarble(mm2.marble, n2, c, false) && mm2.hits == Hits(mm2.to, c)
    ensures GoodBoard(ApplyMarbleMoves(b, [mm1, mm2]))
  {
    LegsKeepGood(b, mm1, n1, s1, mm2, n2);
  }

  /** A split that moves the blocking marble first keeps the invariant. */
  lemma BlockedKeepsGood(player: nat, card: Card, b: Board, m: Marble, len: nat)
    requires GoodBoard(b) && 4 <= len <= 6 && SplitBlocked(player, card, b, m, len).Some?
    ensures GoodBoard(ApplyMarbleMoves(b, SplitBlocked(player, card, b, m, len).value.marbleMoves))
  {
    var mv := SplitBlocked(player, card, b, m, len).value;
    SplitBlockedLegs(player, card, b, m, len);
    assert SplitShape(player, card, b, mv) && |mv.marbleMoves| == 2;
    var mm1, mm2 := mv.marbleMoves[0], mv.marbleMoves[1];
    assert mv.marbleMoves == [mm1, mm2];
    SplitLegsKeepGood(b, mm1, 7 - len, false, mm2, len);
  }

  /** The split a candidate yields keeps the invariant. */
  lemma ChoiceKeepsGood(player: nat, card: Card, b: Board, c: SplitChoice)
    requires GoodBoard(b) && Choose(player, card, b, c).Some?
    ensures GoodBoard(ApplyMarbleMoves(b, Choose(player, card, b, c).value.marbleMoves))
  {
    match c
    case AllSeven(m) => SingleKeepsGood(player, card, b, m);
    case Pair(m, len, x) => PairKeepsGood(player, card, b, m, len, x);
    case Blocked(m, len) => BlockedKeepsGood(player, card, b, m, len);
  }

  /** The carry-over keeps the invariant, and the marble that finishes the
      player's colour stays on the home field it walked to. */
  lemma CarryStaysHome(player: nat, card: Card, b: Board, f: Marble, fp: seq<Field>, tm: Marble)
    requires GoodBoard(b) && 1 <= |fp| <= 6
    requires fp == PathForMarble(f, 6, b, true) && Kind(Keezen, Last(fp)) == Home
    requires tm.color != f.color && CarryFor(player, card, b, f, fp, tm).Some?
    ensures var b' := ApplyMarbleMoves(b, CarryFor(player, card, b, f, fp, tm).value.marbleMoves);
            GoodBoard(b') && FieldOf(b', f) == Some(Last(fp))
  {
    var mms := CarryFor(player, card, b, f, fp, tm).value.marbleMoves;
    var h := Last(fp);
    LeadLegFree(b, f, fp);
    LegKeepsGood(b, mms[0]);
    var b1 := ApplyMarbleMoves(b, [mms[0]]);
    PathLegKeepsGood(b, b1, tm, 7 - |fp|, false, mms[1]);
    PathEnd(tm, 7 - |fp|, b, false);
    assert mms == [mms[0], mms[1]];
    PlayTwo(b, mms[0], mms[1]);
  }

  /** The lead marble's short path ends on a free home field of its own
      colour: a marble there would be of that colour and would block. */
  lemma LeadLegFree(b: Board, f: Marble, fp: seq<Field>)
    requires GoodBoard(b) && fp != [] && fp == PathForMarble(f, 6, b, true)
    requires Kind(Keezen, Last(fp)) == Home
    ensures Last(fp) !in b && ColorOf(Keezen, Last(fp)) == f.color
    ensures FieldOf(b, f).Some? && FieldOf(b, f) != Some(Last(fp))
  {
    var k := FieldOf(b, f).value;
    assert fp == PathForColor(DefaultFlags, f.color, k, 6, b, true);
    assert Last(fp) in fp;
    PathEnd(f, 6, b, true);
  }

  /** Every carry-over keeps the invariant. */
  lemma CarryOverKeepsGood(player: nat, pw: Color, card: Card, b: Board, mv: Move)
    requires GoodBoard(b) && mv in CarryOver(player, pw, card, b)
    ensures GoodBoard(ApplyMarbleMoves(b, mv.marbleMoves))
  {
    var (f, fp) := CarryLead(pw, b).value;
    var tm: Marble :| tm.color == PartnerSeat(pw) && CarryFor(player, card, b, f, fp, tm) == Some(mv);
    CarryStaysHome(player, card, b, f, fp, tm);
  }

  /** Every split keeps the invariant. */
  lemma SplitKeepsGood(player: nat, pw: Color, card: Card, b: Board, mv: Move)
    requires GoodBoard(b) && mv in SplitMoves(player, pw, card, b)
    ensures GoodBoard(ApplyMarbleMoves(b, mv.marbleMoves))
  {
    SplitMovesSpec(player, pw, card, b);
    if c: SplitChoice :| ValidChoice(pw, c) && Choose(player, card, b, c) == Some(mv) {
      ChoiceKeepsGood(player, card, b, c);
    } else {
      CarryOverKeepsGood(player, pw, card, b, mv);
    }
  }

  /** A run of any card keeps the invariant. */
  lemma RunOpKeepsGood(n: int, player: nat, pw: Color, card: Card, b: Board, mv: Move)
    requires GoodBoard(b) && mv in RunMoves(player, pw, card, n, b) && Abs(n) < 64
    ensures GoodBoard(ApplyMarbleMoves(b, mv.marbleMoves))
  {
    var m := RunMarble(player, pw, card, n, b, mv);
    RunKeepsGood(player, card, n, b, m);
  }

  /** The marble a run move of pw moves. */
  lemma RunMarble(player: nat, pw: Color, card: Card, n: int, b: Board, mv: Move) returns (m: Marble)
    requires mv in RunMoves(player, pw, card, n, b)
    ensures m.color == pw && RunFor(player, card, n, b, m) == Some(mv)
  {
    if RunFor(player, card, n, b, Marble(pw, 0)) == Some(mv) {
      m := Marble(pw, 0);
    } else if RunFor(player, card, n, b, Marble(pw, 1)) == Some(mv) {
      m := Marble(pw, 1);
    } else if RunFor(player, card, n, b, Marble(pw, 2)) == Some(mv) {
      m := Marble(pw, 2);
    } else {
      m := Marble(pw, 3);
    }
  }

  /** Every switch a jack offers keeps the invariant. */
  lemma SwitchOpKeepsGood(player: nat, pw: Color, card: Card, b: Board, mv: Move)
    requires GoodBoard(b) && mv in SwitchMoves(player, pw, card, b)
    ensures GoodBoard(ApplyMarbleMoves(b, mv.marbleMoves))
  {
    SwitchMovesSpec(player, pw, card, b);
    var m1, m2 :| SwitchPair(pw, b, m1, m2) && mv == SwitchOf(player, card, b, m1, m2);
    SwitchKeepsGood(player, pw, card, b, m1, m2);
  }

  /** Every move of a card operation keeps the invariant, for runs of
      fewer than 64 fields. */
  lemma OpKeepsGood(op: CardOp, player: nat, pw: Color, card: Card, b: Board, mv: Move)
    requires GoodBoard(b) && mv in OpMoves(op, player, pw, card, b)
    requires op.RunOp? ==> Abs(op.n) < 64
    ensures GoodBoard(ApplyMarbleMoves(b, mv.marbleMoves))
  {
    match op
    case RunOp(n) =>
      assert mv in RunMoves(player, pw, card, n, b);
      RunOpKeepsGood(n, player, pw, card, b, mv);
    case StartOp =>
      var r := StartMoves(player, pw, card, b);
      assert mv in r && |r| == 1 && mv == r[0];
      StartKeepsGood(player, pw, card, b);
    case SwitchOp =>
      assert mv in SwitchMoves(player, pw, card, b);
      SwitchOpKeepsGood(player, pw, card, b, mv);
    case SplitOp =>
      assert mv in SplitMoves(player, pw, card, b);
      SplitKeepsGood(player, pw, card, b, mv);
  }

  /** Every move a card offers keeps the invariant. */
  lemma CardMoveKeepsGood(v: Variant, player: nat, pw: Color, card: Card, b: Board, mv: Move)
    requires GoodBoard(b) && mv in CardMoves(v, player, pw, card, b)
    ensures GoodBoard(ApplyMarbleMoves(b, mv.marbleMoves))
  {
    var op :| op in CardOpsOf(v, card.value) && mv in OpMoves(op, player, pw, card, b);
    if op.RunOp? {
      RunBound(v, card.value, op);
    }
    OpKeepsGood(op, player, pw, card, b, mv);
  }

  /** No card runs a marble 64 fields or more. */
  lemma RunBound(v: Variant, value: CardValue, op: CardOp)
    requires op in CardOpsOf(v, value) && op.RunOp?
    ensures Abs(op.n) < 64
  {
    var ops := CardOpsOf(v, value);
    var k :| 0 <= k < |ops| && ops[k] == op;
  }

  /** Every move `get_allowed_moves` offers, other than the deal, keeps
      the Keezen board invariant. */
  lemma AllowedKeepsBoard(rules: Rules, gs: GameState, mv: Move)
    requires Seated(gs) && GoodBoard(gs.board)
    requires mv in AllowedMoves(rules, gs) && mv.kind != DealMove
    ensures GoodBoard(ApplyMarbleMoves(gs.board, mv.marbleMoves))
  {
    var r := AllowedMoves(rules, gs);
    if mv.kind == ThrowCards {
      assert r == [Move(ThrowCards, gs.mover, gs.cards.hands[gs.mover], [])];
    } else {
      var c :| c in Dedup(gs.cards.hands[gs.mover]) &&
               mv in CardMoves(rules.variant, gs.mover, gs.playsWith[gs.mover], c, gs.board);
      CardMoveKeepsGood(rules.variant, gs.mover, gs.playsWith[gs.mover], c, gs.board, mv);
    }
  }
}
