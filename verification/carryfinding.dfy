/** The carry-over split of keezen/cardop.py as written, on a board where
    it sends the marble that just finished back to its pen. Green (seat 0)
    has three marbles home on fields 0, 1 and 2 and the fourth on field
    91, two steps before its home entrance 3; blue, green's team mate,
    has a marble on 86. With a seven green plays G3 home (91, 4, 3) and
    the remaining five steps with B0 (87 to 91). The source takes B0's
    hits on the board before G3 moved, so B0 "hits" G3 on 91 and G3 ends
    on wait field 20 instead of home field 3. */
module CarryFinding {
  import opened Common
  import opened Layout
  import opened BoardState
  import opened Paths
  import opened KeezenPaths
  import opened Cards
  import opened Moves
  import opened CardOps
  import opened KeezenBoard
  import opened Seats
  import opened KeezenGame

  const G3 := Marble(0, 3)
  const B0 := Marble(2, 0)

  /** The board of the finding: every marble not named above waits in
      its pen, blue's first wait field being free. */
  const Scene: Board := map[
    0 := Marble(0, 0), 1 := Marble(0, 1), 2 := Marble(0, 2), 91 := G3,
    44 := Marble(1, 0), 45 := Marble(1, 1), 46 := Marble(1, 2), 47 := Marble(1, 3),
    86 := B0, 69 := Marble(2, 1), 70 := Marble(2, 2), 71 := Marble(2, 3),
    92 := Marble(3, 0), 93 := Marble(3, 1), 94 := Marble(3, 2), 95 := Marble(3, 3)]

  const SevenOfHearts := Card(Hearts, Seven, 0)

  /** Where every marble of the scene stands. */
  function SceneField(m: Marble): (k: Field)
    ensures k in Scene && Scene[k] == m
  {
    match m.color
    case 0 => if m.idx == 3 then 91 else m.idx
    case 1 => 44 + m.idx
    case 2 => if m.idx == 0 then 86 else 68 + m.idx
    case 3 => 92 + m.idx
  }

  lemma SceneInjective()
    ensures Injective(Scene)
  {
    forall f, f' | f in Scene && f' in Scene && Scene[f] == Scene[f']
      ensures f == f'
    {
      assert f == SceneField(Scene[f]);
      assert f' == SceneField(Scene[f']);
    }
  }

  /** The scene is a position of a game in progress. */
  lemma SceneGood()
    ensures GoodBoard(Scene)
  {
    SceneInjective();
    ScenePlaced();
    SceneKinds();
  }

  /** What the lemmas below use of the scene: where the marbles stand,
      that green's home entrance 3 is free, and that only green's three
      home marbles stand on home fields. */
  ghost predicate Boxed(b: Board)
  {
    && GoodBoard(b)
    && (forall i: MarbleIdx :: i < 3 ==> FieldOf(b, Marble(0, i)) == Some(i))
    && FieldOf(b, G3) == Some(91) && 3 !in b
    && FieldOf(b, B0) == Some(86)
    && (forall i: MarbleIdx :: 1 <= i ==> FieldOf(b, Marble(2, i)) == Some(68 + i))
    && (forall h :: h in b && Kind(Keezen, h) == Home ==> b[h].color == 0 && b[h].idx < 3)
  }

  lemma SceneBoxed()
    ensures Boxed(Scene)
  {
    SceneGood();
    forall m: Marble
      ensures FieldOf(Scene, m) == Some(SceneField(m))
    {
      FieldOfOnInjective(Scene, SceneField(m));
    }
    SceneHomes();
  }

  lemma SceneHomes()
    ensures forall h :: h in Scene && Kind(Keezen, h) == Home ==> Scene[h].color == 0 && Scene[h].idx < 3
  {
  }

  lemma ScenePlaced()
    ensures forall m: Marble :: FieldOf(Scene, m).Some?
  {
    forall m: Marble
      ensures FieldOf(Scene, m).Some?
    {
      assert SceneField(m) in Scene;
    }
  }

  lemma SceneKinds()
    ensures forall f :: f in Scene ==> IsField(Keezen, f)
    ensures forall f :: f in Scene && Kind(Keezen, f) == Wait ==> Scene[f].color == ColorOf(Keezen, f)
    ensures forall f :: f in Scene && Kind(Keezen, f) == Home ==> Scene[f].color == ColorOf(Keezen, f)
  {
  }

  // ------------------------------------------------------------ the walks

  /** Two hops, and then none. */
  lemma TwoHopsThenStop(h: Field -> Option<Field>, x0: Field, x1: Field, x2: Field, k: nat)
    requires h(x0) == Some(x1) && h(x1) == Some(x2) && h(x2).None? && k >= 2
    ensures Walk(h, x0, k) == [x1, x2]
  {
    var p := [x1, x2];
    assert At(x0, p, 0) == x0 && At(x0, p, 1) == x1 && At(x0, p, 2) == x2;
    ChainIsWalk(h, x0, p, k);
  }

  /** Five hops one after the other. */
  lemma FiveHops(h: Field -> Option<Field>, x0: Field, x1: Field, x2: Field, x3: Field, x4: Field, x5: Field)
    requires h(x0) == Some(x1) && h(x1) == Some(x2) && h(x2) == Some(x3) && h(x3) == Some(x4) && h(x4) == Some(x5)
    ensures Walk(h, x0, 5) == [x1, x2, x3, x4, x5]
  {
    var p := [x1, x2, x3, x4, x5];
    assert At(x0, p, 0) == x0 && At(x0, p, 1) == x1 && At(x0, p, 2) == x2 && At(x0, p, 3) == x3 && At(x0, p, 4) == x4;
    ChainIsWalk(h, x0, p, 5);
  }

  /** Green walks from 91 over the junction 4 to its home entrance 3: its
      own start field 5 is closed to a marble running home, and home field
      2 is taken. */
  lemma GreenHops(b: Board)
    requires 3 !in b && 2 in b && b[2].color == 0
    ensures var w := KeezenWalker(DefaultFlags, 0, b, false);
            Hop(w, 91) == Some(4) && Hop(w, 4) == Some(3) && Hop(w, 3).None?
  {
    var w := KeezenWalker(DefaultFlags, 0, b, false);
    assert NextFields(Keezen, 91) == [4];
    assert NextFields(Keezen, 4) == [5, 3];
    assert NextFields(Keezen, 3) == [2];
    assert !Allowed(w, 4, 5);
    assert FirstAllowed(w, 4, [5, 3]) == FirstAllowed(w, 4, [3]);
  }

  /** G3 gets no further than its home entrance. */
  lemma LeadStops(b: Board, n: int)
    requires Boxed(b) && 2 <= n <= 7
    ensures PathForMarble(G3, n, b, true) == [4, 3]
    ensures n > 2 ==> PathForMarble(G3, n, b, false) == []
  {
    var w := KeezenWalker(DefaultFlags, 0, b, false);
    assert FieldOf(b, Marble(0, 2)) == Some(2);
    GreenHops(b);
    TwoHopsThenStop(HopOf(w), 91, 4, 3, n);
    assert PathForColor(DefaultFlags, 0, 91, n, b, true) == PathFrom(w, 91, n, true);
    assert PathForColor(DefaultFlags, 0, 91, n, b, false) == PathFrom(w, 91, n, false);
  }

  /** Blue walks five fields of yellow's track, to G3's field. */
  lemma PartnerPath(b: Board)
    requires Boxed(b)
    ensures PathForMarble(B0, 5, b, false) == [87, 88, 89, 90, 91]
  {
    var w := KeezenWalker(DefaultFlags, 2, b, false);
    assert NextFields(Keezen, 86) == [87] && NextFields(Keezen, 87) == [88] && NextFields(Keezen, 88) == [89];
    assert NextFields(Keezen, 89) == [90] && NextFields(Keezen, 90) == [91];
    FiveHops(HopOf(w), 86, 87, 88, 89, 90, 91);
    assert PathForColor(DefaultFlags, 2, 86, 5, b, false) == PathFrom(w, 86, 5, false);
  }

  /** Green's home marbles cannot move: field 0 is the dead end and the
      fields before 1 and 2 are taken by green. */
  lemma HomeStuck(b: Board, x: Marble, n: int, short: bool)
    requires Boxed(b) && x.color == 0 && x.idx < 3 && n >= 1
    ensures PathForMarble(x, n, b, short) == []
  {
    var w := KeezenWalker(DefaultFlags, 0, b, false);
    var f := x.idx;
    assert FieldOf(b, x) == Some(f);
    assert FieldOf(b, Marble(0, 0)) == Some(0) && FieldOf(b, Marble(0, 1)) == Some(1);
    assert NextFields(Keezen, 0) == [] && NextFields(Keezen, 1) == [0] && NextFields(Keezen, 2) == [1];
    assert Hop(w, f).None?;
    WalkStep(HopOf(w), f, Abs(n));
    assert PathForColor(DefaultFlags, 0, f, n, b, short) == PathFrom(w, f, n, short);
  }

  // ------------------------------------------------------------ the splits

  /** Green has no split of its own marbles. */
  lemma NoOwnSplit(b: Board, card: Card, c: SplitChoice)
    requires Boxed(b) && ValidChoice(0, c)
    ensures Choose(0, card, b, c).None?
  {
    if c.AllSeven? {
      if c.m.idx < 3 {
        HomeStuck(b, c.m, 7, false);
      } else {
        LeadStops(b, 7);
      }
    } else if c.Pair? {
      if c.m.idx < 3 {
        HomeStuck(b, c.m, c.len, true);
      } else {
        LeadStops(b, c.len);
      }
    } else {
      NoBlockedSplit(b, card, c.m, c.len);
    }
  }

  /** No green marble blocked in the home spur has a marble before it
      that can move. */
  lemma NoBlockedSplit(b: Board, card: Card, m: Marble, len: nat)
    requires Boxed(b) && m.color == 0 && 4 <= len <= 6
    ensures SplitBlocked(0, card, b, m, len).None?
  {
    var p := PathForMarble(m, len, b, true);
    var r := BlockedByOwnMarble(m, p, b);
    if r.Some? {
      var h :| h in b && b[h] == r.value && Kind(Keezen, h) == Home && ColorOf(Keezen, h) == 0;
      HomeStuck(b, r.value, 7 - len, false);
    }
  }

  /** The carry-over leads with G3 along [4, 3]. */
  lemma Lead(b: Board)
    requires Boxed(b)
    ensures CarryLead(0, b) == Some((G3, [4, 3]))
  {
    assert FieldOf(b, Marble(0, 0)) == Some(0) && FieldOf(b, Marble(0, 1)) == Some(1) && FieldOf(b, Marble(0, 2)) == Some(2);
    LeadStops(b, 6);
    assert FirstAway(0, b, 0) == Some(G3);
  }

  /** Green's three home marbles are all at home and none can move. */
  lemma HomeFull(b: Board)
    requires Boxed(b)
    ensures |MarblesAtHome(Keezen, 0, b)| == 3
    ensures HomeMobility(MarblesAtHome(Keezen, 0, b), b) == 0
  {
    HomeCount(b);
    forall x | x in MarblesAtHome(Keezen, 0, b)
      ensures PathForMarble(x, 3, b, true) == []
    {
      assert OnKind(Keezen, b, x, Home);
      HomeStuck(b, x, 3, true);
    }
  }

  lemma HomeCount(b: Board)
    requires Boxed(b)
    ensures |MarblesAtHome(Keezen, 0, b)| == 3
  {
    var ms := MarblesWithColor(0);
    assert FieldOf(b, Marble(0, 0)) == Some(0) && FieldOf(b, Marble(0, 1)) == Some(1) && FieldOf(b, Marble(0, 2)) == Some(2);
    assert ms[3..] == [G3] && [G3][1..] == [];
    assert MarblesOnKind(Keezen, b, ms[3..], Home) == [];
    assert ms[2..] == [Marble(0, 2)] + ms[3..];
    assert |MarblesOnKind(Keezen, b, ms[2..], Home)| == 1;
    assert ms[1..] == [Marble(0, 1)] + ms[2..];
    assert |MarblesOnKind(Keezen, b, ms[1..], Home)| == 2;
  }

  /** Green has no split of its own marbles at all. */
  lemma NoMainSplit(b: Board, card: Card)
    requires Boxed(b)
    ensures MainSplits(0, 0, card, b) == []
  {
    var r := MainSplits(0, 0, card, b);
    if r != [] {
      assert r[0] in r;
      var c: SplitChoice :| ValidChoice(0, c) && Choose(0, card, b, c) == Some(r[0]);
      NoOwnSplit(b, card, c);
      assert false;
    }
  }

  /** Every carry-over green can play moves B0. */
  lemma CarryOnlyB0(b: Board, card: Card)
    requires Boxed(b)
    ensures forall mv :: mv in CarryOver(0, 0, card, b) ==> Some(mv) == CarryFor(0, card, b, G3, [4, 3], B0)
  {
    Lead(b);
    assert PartnerSeat(0) == 2;
    forall mv | mv in CarryOver(0, 0, card, b)
      ensures Some(mv) == CarryFor(0, card, b, G3, [4, 3], B0)
    {
      var tm: Marble :| tm.color == 2 && CarryFor(0, card, b, G3, [4, 3], tm) == Some(mv);
      if tm.idx != 0 {
        PenStuck(b, tm);
      }
    }
  }

  /** Blue's other marbles wait in their pen and cannot run. */
  lemma PenStuck(b: Board, tm: Marble)
    requires Boxed(b) && tm.color == 2 && tm.idx != 0
    ensures PathForMarble(tm, 5, b, false) == []
  {
    var f := 68 + tm.idx;
    assert FieldOf(b, tm) == Some(f);
    assert f == 69 || f == 70 || f == 71;
    assert Kind(Keezen, f) == Wait;
  }

  /** The carry-over with B0 is offered. */
  lemma CarryWithB0(b: Board, card: Card)
    requires Boxed(b)
    ensures CarryFor(0, card, b, G3, [4, 3], B0).Some?
    ensures CarryFor(0, card, b, G3, [4, 3], B0).value in CarryOver(0, 0, card, b)
  {
    Lead(b);
    HomeFull(b);
    PartnerPath(b);
    assert PartnerSeat(0) == 2;
  }

  /** The only split green can play with a seven is the carry-over with
      B0, which the model takes with hits on the board G3's move leaves. */
  lemma OnlySplit(b: Board, card: Card)
    requires Boxed(b)
    ensures CarryFor(0, card, b, G3, [4, 3], B0).Some?
    ensures CarryFor(0, card, b, G3, [4, 3], B0).value in SplitMoves(0, 0, card, b)
    ensures forall mv :: mv in SplitMoves(0, 0, card, b) ==> mv == CarryFor(0, card, b, G3, [4, 3], B0).value
  {
    NoMainSplit(b, card);
    assert SplitMoves(0, 0, card, b) == CarryOver(0, 0, card, b);
    CarryOnlyB0(b, card);
    CarryWithB0(b, card);
  }

  // ------------------------------------------------------------ the outcome

  /** Green's first wait field is free: every green marble stands
      elsewhere. */
  lemma PenFree(b: Board)
    requires Boxed(b)
    ensures 20 !in b && EmptyWaitField(Keezen, 0, b) == Some(20)
  {
    if 20 in b {
      FieldOfOnInjective(b, 20);
      assert false;
    }
    assert WaitField(Keezen, 0, 0) == 20;
  }

  /** Playing one marble move with no hit is one put. */
  lemma PlayQuiet(b: Board, mm: MarbleMove)
    requires mm.hits == []
    ensures ApplyMarbleMoves(b, [mm]) == Put(b, mm.marble, mm.to).0
  {
    assert ApplyMarbleMoves(b, [mm]) == ApplyMarbleMoves(ApplyHits(Put(b, mm.marble, mm.to).0, []), []);
  }

  /** Playing one marble move with one hit is two puts. */
  lemma PlayHit(b: Board, mm: MarbleMove, h: HitMove)
    requires mm.hits == [h] && h.to.Some?
    ensures ApplyMarbleMoves(b, [mm]) == Put(Put(b, mm.marble, mm.to).0, h.marble, h.to.value).0
  {
    var b1 := Put(b, mm.marble, mm.to).0;
    assert [h][1..] == [];
    assert ApplyHits(b1, [h]) == Put(b1, h.marble, h.to.value).0;
    assert ApplyMarbleMoves(b, [mm]) == ApplyMarbleMoves(ApplyHits(b1, [h]), []);
  }

  /** G3's move home, played first: it leaves 91 and stands on 3, and B0
      stays on 86. */
  lemma LeadLegPlayed(b: Board, mm: MarbleMove)
    requires Boxed(b) && mm.marble == G3 && mm.to == 3 && mm.hits == []
    ensures var b1 := ApplyMarbleMoves(b, [mm]);
            && Injective(b1) && 91 !in b1
            && FieldOf(b1, G3) == Some(3) && FieldOf(b1, B0) == Some(86)
  {
    var b1 := Put(b, G3, 3).0;
    PlayQuiet(b, mm);
    assert 86 in b1 && b1[86] == B0;
    FieldOfOnInjective(b1, 86);
  }

  /** As keezen/cardop.py writes it, the carry-over's second leg takes
      its hits on the board before G3 moved: B0 "hits" G3 on 91, and G3,
      which had finished, ends on wait field 20 with home field 3 empty. */
  lemma AsWrittenSendsBack(b: Board, card: Card)
    requires Boxed(b)
    ensures CarryForAsWritten(0, card, b, G3, [4, 3], B0).Some?
    ensures var mms := CarryForAsWritten(0, card, b, G3, [4, 3], B0).value.marbleMoves;
            && mms[1].to == 91 && mms[1].hits == [HitMove(G3, 91, Some(20))]
            && var b' := ApplyMarbleMoves(b, mms);
            FieldOf(b', G3) == Some(20) && 3 !in b'
  {
    PartnerPath(b);
    PenFree(b);
    var mms := CarryForAsWritten(0, card, b, G3, [4, 3], B0).value.marbleMoves;
    assert b[91] == G3;
    SecondLegHits(b, mms[0], mms[1]);
    assert mms == [mms[0], mms[1]];
    PlayTwo(b, mms[0], mms[1]);
  }

  /** After G3's move home, B0 moving to 91 with the hit taken on the
      board before sends G3 to wait field 20 and empties home field 3. */
  lemma SecondLegHits(b: Board, lead: MarbleMove, mm: MarbleMove)
    requires Boxed(b) && lead.marble == G3 && lead.to == 3 && lead.hits == []
    requires mm.marble == B0 && mm.to == 91 && mm.hits == [HitMove(G3, 91, Some(20))]
    ensures var b' := ApplyMarbleMoves(ApplyMarbleMoves(b, [lead]), [mm]);
            FieldOf(b', G3) == Some(20) && 3 !in b'
  {
    LeadLegPlayed(b, lead);
    var b1 := ApplyMarbleMoves(b, [lead]);
    var b2 := Put(b1, B0, 91).0;
    assert 3 in b2 && b2[3] == G3;
    FieldOfOnInjective(b2, 3);
    PlayHit(b1, mm, HitMove(G3, 91, Some(20)));
  }

  /** The corrected carry-over takes B0's hits on the board G3's move
      leaves: 91 is free by then, nothing is hit, and G3 stays home. */
  lemma CorrectedStaysHome(b: Board, card: Card)
    requires Boxed(b)
    ensures CarryFor(0, card, b, G3, [4, 3], B0).Some?
    ensures var mms := CarryFor(0, card, b, G3, [4, 3], B0).value.marbleMoves;
            && mms[1].to == 91 && mms[1].hits == []
            && var b' := ApplyMarbleMoves(b, mms);
            FieldOf(b', G3) == Some(3) && FieldOf(b', B0) == Some(91)
  {
    PartnerPath(b);
    LeadStops(b, 6);
    var mms := CarryFor(0, card, b, G3, [4, 3], B0).value.marbleMoves;
    LeadLegPlayed(b, mms[0]);
    CarryStaysHome(0, card, b, G3, [4, 3], B0);
    var b1 := ApplyMarbleMoves(b, [mms[0]]);
    PlayQuiet(b1, mms[1]);
    assert mms == [mms[0], mms[1]];
    PlayTwo(b, mms[0], mms[1]);
  }

  /** The finding on the scene: the carry-over with B0 is the only split
      green has; as written it sends G3 back to its pen, corrected it
      leaves G3 home. */
  lemma CarryOverFinding()
    ensures CarryFor(0, SevenOfHearts, Scene, G3, [4, 3], B0).Some?
    ensures forall mv :: mv in SplitMoves(0, 0, SevenOfHearts, Scene) <==> Some(mv) == CarryFor(0, SevenOfHearts, Scene, G3, [4, 3], B0)
    ensures FieldOf(ApplyMarbleMoves(Scene, CarryForAsWritten(0, SevenOfHearts, Scene, G3, [4, 3], B0).value.marbleMoves), G3) == Some(20)
    ensures FieldOf(ApplyMarbleMoves(Scene, CarryFor(0, SevenOfHearts, Scene, G3, [4, 3], B0).value.marbleMoves), G3) == Some(3)
  {
    SceneBoxed();
    OnlySplit(Scene, SevenOfHearts);
    AsWrittenSendsBack(Scene, SevenOfHearts);
    CorrectedStaysHome(Scene, SevenOfHearts);
  }
}
