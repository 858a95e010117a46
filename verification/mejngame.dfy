/** The mejn game (mejn/game.py): the moves a throw of the die allows,
    playing one, and the end of the game. The die is an input: where the
    source calls `throw_dice`, the caller passes the throw in. Seat i
    plays colour i, so the player to move is a colour. */
module MejnGame {
  import opened Common
  import opened Layout
  import opened BoardState
  import opened Moves
  import opened MejnPaths

  /** A throw of the die (`throw_dice`: `random.randint(1, 6)`). */
  type Die = d: int | 1 <= d <= 6 witness 1

  /** `MoveType` of mejn/move.py: START, RUN and NONE. */
  datatype MejnMoveType = MejnStart | MejnRun | MejnNone

  /** `Move` of mejn/move.py: its type, the colour of its player, its
      marble moves, and its number of steps (the die for a RUN, 0
      otherwise). */
  datatype MejnMove = MejnMove(kind: MejnMoveType, player: Color, marbleMoves: seq<MarbleMove>, steps: nat)

  /** `GameState`: the board, the player to move, the move counter and the
      last throw of the die. */
  datatype MejnState = MejnState(board: Board, mover: Color, moveNumber: nat, dice: Die)

  /** What `step` returns: the new state, the rewards (`None` while the
      game goes on) and whether the game is over. */
  datatype MejnStep = MejnStep(state: MejnState, rewards: Option<seq<nat>>, done: bool)

  // --------------------------------------------------------------- the end

  /** `is_over`: the game ends when all four marbles of the player to move
      are on home fields; that player gets 1 and every other player 0. */
  function IsOver(gs: MejnState): (r: Option<seq<nat>>)
    ensures r.Some? <==> forall i :: 0 <= i < 4 ==> OnKind(Mejn, gs.board, Marble(gs.mover, i), Home)
    ensures r.Some? ==> |r.value| == NumPlayers
    ensures r.Some? ==> forall p :: 0 <= p < NumPlayers ==> r.value[p] == if p == gs.mover then 1 else 0
  {
    FinishedIffAllHome(Mejn, gs.mover, gs.board);
    if IsColorFinished(Mejn, gs.mover, gs.board, 4) then
      Some(seq(NumPlayers, p => if p == gs.mover then 1 else 0))
    else None
  }

  /** There is one winner: the rewards add up to one. */
  lemma OneWinner(gs: MejnState)
    ensures IsOver(gs).Some? ==> Sum(IsOver(gs).value) == 1
  {
    if IsOver(gs).Some? {
      var r := IsOver(gs).value;
      assert Sum(r[3..]) == r[3] by { assert r[3..][1..] == []; }
      assert Sum(r[2..]) == r[2] + r[3] by { assert r[2..][1..] == r[3..]; }
      assert Sum(r[1..]) == r[1] + r[2] + r[3] by { assert r[1..][1..] == r[2..]; }
    }
  }

  // ------------------------------------------------------------ the start

  /** `init_game`: every marble on its own wait field, and the player of
      seat 0 to move with the first throw. */
  function InitGame(dice: Die): (r: MejnState)
    ensures WellFormed(Mejn, r.board)
    ensures forall m: Marble :: FieldOf(r.board, m) == Some(WaitField(Mejn, m.color, m.idx))
    ensures r.mover == 0 && r.moveNumber == 0 && r.dice == dice
    ensures IsOver(r).None?
  {
    var b := InitialBoard(Mejn);
    var r := MejnState(b, 0, 0, dice);
    InitialNotOver(r);
    r
  }

  lemma InitialNotOver(gs: MejnState)
    requires gs.board == InitialBoard(Mejn)
    ensures IsOver(gs).None?
  {
    InitialPens(gs.board);
    assert !OnKind(Mejn, gs.board, Marble(gs.mover, 0), Home);
  }

  /** On the initial board every marble sits in its own pen, so no colour
      is home. */
  lemma InitialPens(b: Board)
    requires b == InitialBoard(Mejn)
    ensures forall m: Marble :: OnKind(Mejn, b, m, Wait) && ColorOf(Mejn, FieldOf(b, m).value) == m.color
  {
    forall m: Marble
      ensures OnKind(Mejn, b, m, Wait) && ColorOf(Mejn, FieldOf(b, m).value) == m.color
    {
      assert FieldOf(b, m) == Some(WaitField(Mejn, m.color, m.idx));
    }
  }

  // -------------------------------------------------------- allowed moves

  /** Whether a marble may START: only on a six, only from its wait pen,
      and only while its start field holds no marble of any colour. */
  predicate CanStart(b: Board, dice: Die, m: Marble)
  {
    dice == 6 && OnKind(Mejn, b, m, Wait) && StartField(Mejn, m.color) !in b
  }

  /** The START move of a marble: from its wait field onto its start
      field, with no steps and no hits. */
  function StartOf(b: Board, m: Marble): MejnMove
  {
    MejnMove(MejnStart, m.color, [MarbleMove(m, FieldOf(b, m), StartField(Mejn, m.color), [], [])], 0)
  }

  /** The RUN move of a marble, when it has a path of exactly `dice`
      steps: to the path's end, hitting the marble that stands there back
      to the first free wait field of that marble's colour. The marble
      ends exactly `dice` places further along its colour's route. */
  function RunOf(b: Board, dice: Die, m: Marble): (r: Option<MejnMove>)
    ensures r.Some? <==> PathForMarble(m, dice, b, false) != []
    ensures r.Some? ==> && r.value.kind == MejnRun && r.value.player == m.color && r.value.steps == dice
                        && |r.value.marbleMoves| == 1 && r.value.marbleMoves[0].marble == m
    ensures r.Some? ==> var mm := r.value.marbleMoves[0];
              && |mm.steps| == dice && mm.to == Last(mm.steps)
              && mm.from.Some? && mm.from == FieldOf(b, m)
              && IsField(Mejn, mm.from.value) && IsField(Mejn, mm.to)
              && Route(m.color, mm.to) == Route(m.color, mm.from.value) + dice
              && mm.hits == HitMoves(Mejn, mm.to, b)
  {
    var path := PathForMarble(m, dice, b, false);
    if path == [] then None
    else
      var f := FieldOf(b, m).value;
      PathAlongRoute(m.color, f, dice, b, false);
      assert Route(m.color, path[|path| - 1]) == Route(m.color, f) + |path|;
      Some(MejnMove(MejnRun, m.color, [MarbleMove(m, FieldOf(b, m), Last(path), path, HitMoves(Mejn, Last(path), b))], dice))
  }

  /** One pass of the loop of `get_allowed_moves`: the marble's START move
      first, then its RUN move. */
  function MarbleChoices(b: Board, dice: Die, m: Marble): (r: seq<MejnMove>)
    ensures forall mv :: mv in r <==> (CanStart(b, dice, m) && mv == StartOf(b, m)) || RunOf(b, dice, m) == Some(mv)
  {
    (if CanStart(b, dice, m) then [StartOf(b, m)] else [])
    + (match RunOf(b, dice, m) case Some(mv) => [mv] case None => [])
  }

  /** No marble of the player to move can START or RUN. */
  ghost predicate Stuck(gs: MejnState)
  {
    forall m: Marble :: m.color == gs.mover ==> !CanStart(gs.board, gs.dice, m) && RunOf(gs.board, gs.dice, m).None?
  }

  /** The one NONE move of a player. */
  function NoMove(p: Color): MejnMove
  {
    MejnMove(MejnNone, p, [], 0)
  }

  /** The loop of `get_allowed_moves` over the marbles of the player to
      move, in marble order. */
  function MarbleMoves(gs: MejnState): seq<MejnMove>
  {
    FlatMap((m: Marble) => MarbleChoices(gs.board, gs.dice, m), MarblesWithColor(gs.mover))
  }

  /** `get_allowed_moves`: the START and RUN moves of the marbles of the
      player to move, marble by marble; failing those, one NONE move while
      the game goes on, and nothing once it is over. */
  function AllowedMoves(gs: MejnState): (r: seq<MejnMove>)
    ensures forall mv :: mv in r ==> mv.player == gs.mover
    ensures NoMove(gs.mover) in r <==> Stuck(gs) && IsOver(gs).None?
    ensures NoMove(gs.mover) in r ==> r == [NoMove(gs.mover)]
    ensures r == [] <==> Stuck(gs) && IsOver(gs).Some?
  {
    var moves := MarbleMoves(gs);
    MovesFound(gs);
    if moves == [] && IsOver(gs).None? then [NoMove(gs.mover)] else moves
  }

  /** Every START and RUN move of the player's marbles is allowed. */
  lemma AllowedComplete(gs: MejnState)
    ensures forall m: Marble :: m.color == gs.mover && CanStart(gs.board, gs.dice, m) ==>
              StartOf(gs.board, m) in AllowedMoves(gs)
    ensures forall m: Marble :: m.color == gs.mover && RunOf(gs.board, gs.dice, m).Some? ==>
              RunOf(gs.board, gs.dice, m).value in AllowedMoves(gs)
  {
    MovesFound(gs);
    forall m: Marble | m.color == gs.mover
      ensures CanStart(gs.board, gs.dice, m) ==> StartOf(gs.board, m) in AllowedMoves(gs)
      ensures RunOf(gs.board, gs.dice, m).Some? ==> RunOf(gs.board, gs.dice, m).value in AllowedMoves(gs)
    {
      if CanStart(gs.board, gs.dice, m) {
        assert StartOf(gs.board, m) in MarbleChoices(gs.board, gs.dice, m);
      }
      if RunOf(gs.board, gs.dice, m).Some? {
        assert RunOf(gs.board, gs.dice, m).value in MarbleChoices(gs.board, gs.dice, m);
      }
    }
  }

  /** Every allowed START or RUN move is one of a marble of the player to
      move: a START only on a six from the pen onto a free start field, a
      RUN only along a full path. */
  lemma AllowedSound(gs: MejnState)
    ensures forall mv :: mv in AllowedMoves(gs) && mv.kind == MejnStart ==>
              && |mv.marbleMoves| == 1
              && var m := mv.marbleMoves[0].marble;
                 m.color == gs.mover && CanStart(gs.board, gs.dice, m) && mv == StartOf(gs.board, m)
    ensures forall mv :: mv in AllowedMoves(gs) && mv.kind == MejnRun ==>
              && |mv.marbleMoves| == 1
              && var m := mv.marbleMoves[0].marble;
                 m.color == gs.mover && RunOf(gs.board, gs.dice, m) == Some(mv)
    ensures forall mv :: mv in AllowedMoves(gs) && mv.kind == MejnNone ==> mv == NoMove(gs.mover)
  {
    AllowedChoices(gs);
    forall mv | mv in AllowedMoves(gs) && mv != NoMove(gs.mover)
      ensures mv.kind != MejnNone
      ensures mv.kind == MejnStart ==> var m := mv.marbleMoves[0].marble;
                CanStart(gs.board, gs.dice, m) && mv == StartOf(gs.board, m)
      ensures mv.kind == MejnRun ==> RunOf(gs.board, gs.dice, mv.marbleMoves[0].marble) == Some(mv)
    {
      ChoiceKinds(gs, mv);
    }
  }

  /** An allowed move is the NONE move or a move of one of the player's
      marbles. */
  lemma AllowedChoices(gs: MejnState)
    ensures forall mv :: mv in AllowedMoves(gs) ==> mv == NoMove(gs.mover) || ChoiceOf(gs, mv)
  {
    MovesFound(gs);
  }

  lemma ChoiceKinds(gs: MejnState, mv: MejnMove)
    requires ChoiceOf(gs, mv)
    ensures mv.kind != MejnNone
    ensures mv.kind == MejnStart ==> var m := mv.marbleMoves[0].marble;
              CanStart(gs.board, gs.dice, m) && mv == StartOf(gs.board, m)
    ensures mv.kind == MejnRun ==> RunOf(gs.board, gs.dice, mv.marbleMoves[0].marble) == Some(mv)
  {
  }

  /** A move one marble of the player to move makes. */
  ghost predicate ChoiceOf(gs: MejnState, mv: MejnMove)
  {
    && |mv.marbleMoves| == 1
    && mv.marbleMoves[0].marble.color == gs.mover
    && mv in MarbleChoices(gs.board, gs.dice, mv.marbleMoves[0].marble)
  }

  /** What the loop over the marbles finds: exactly the START and RUN
      moves of the player's marbles, and nothing at all when stuck. */
  lemma MovesFound(gs: MejnState)
    ensures forall mv :: mv in MarbleMoves(gs) ==> ChoiceOf(gs, mv) && mv.kind != MejnNone && mv.player == gs.mover
    ensures forall m: Marble, mv :: m.color == gs.mover && mv in MarbleChoices(gs.board, gs.dice, m) ==> mv in MarbleMoves(gs)
    ensures MarbleMoves(gs) == [] <==> Stuck(gs)
  {
    var moves := MarbleMoves(gs);
    MovesSound(gs, moves);
    MovesComplete(gs, moves);
    if !Stuck(gs) {
      var m: Marble :| m.color == gs.mover && !(!CanStart(gs.board, gs.dice, m) && RunOf(gs.board, gs.dice, m).None?);
      if CanStart(gs.board, gs.dice, m) {
        assert StartOf(gs.board, m) in MarbleChoices(gs.board, gs.dice, m);
      } else {
        assert RunOf(gs.board, gs.dice, m).value in MarbleChoices(gs.board, gs.dice, m);
      }
    }
  }

  lemma MovesSound(gs: MejnState, moves: seq<MejnMove>)
    requires moves == FlatMap((m: Marble) => MarbleChoices(gs.board, gs.dice, m), MarblesWithColor(gs.mover))
    ensures forall mv :: mv in moves ==> ChoiceOf(gs, mv) && mv.kind != MejnNone && mv.player == gs.mover
  {
    var f := (m: Marble) => MarbleChoices(gs.board, gs.dice, m);
    forall mv | mv in moves
      ensures ChoiceOf(gs, mv) && mv.kind != MejnNone && mv.player == gs.mover
    {
      var m :| m in MarblesWithColor(gs.mover) && mv in f(m);
      ChoiceFacts(gs, m, mv);
    }
  }

  lemma ChoiceFacts(gs: MejnState, m: Marble, mv: MejnMove)
    requires m.color == gs.mover && mv in MarbleChoices(gs.board, gs.dice, m)
    ensures ChoiceOf(gs, mv) && mv.kind != MejnNone && mv.player == gs.mover
  {
    assert mv.marbleMoves[0].marble == m;
  }

  lemma MovesComplete(gs: MejnState, moves: seq<MejnMove>)
    requires moves == FlatMap((m: Marble) => MarbleChoices(gs.board, gs.dice, m), MarblesWithColor(gs.mover))
    ensures forall m: Marble, mv :: m.color == gs.mover && mv in MarbleChoices(gs.board, gs.dice, m) ==> mv in moves
  {
    var f := (m: Marble) => MarbleChoices(gs.board, gs.dice, m);
    forall m: Marble, mv | m.color == gs.mover && mv in MarbleChoices(gs.board, gs.dice, m)
      ensures mv in moves
    {
      assert m in MarblesWithColor(gs.mover);
      assert mv in f(m);
    }
  }

  // ---------------------------------------------------------------- a step

  /** `step`: the move's marble moves and their hits are played in order
      and the move counter goes up (with no move, neither happens); the
      game is over when the player who moved has all four marbles home;
      that player keeps the turn after a six or a win, and otherwise the
      next seat moves; `next` is the new throw of the die. */
  function Step(gs: MejnState, mv: Option<MejnMove>, next: Die): (r: MejnStep)
    ensures r.state.board == (if mv.Some? then ApplyMarbleMoves(gs.board, mv.value.marbleMoves) else gs.board)
    ensures r.state.moveNumber == gs.moveNumber + (if mv.Some? then 1 else 0)
    ensures r.state.dice == next
    ensures r.done <==> forall i :: 0 <= i < 4 ==> OnKind(Mejn, r.state.board, Marble(gs.mover, i), Home)
    ensures r.done == r.rewards.Some?
    ensures r.done ==> |r.rewards.value| == NumPlayers
    ensures r.done ==> r.rewards.value[gs.mover] == 1 && Sum(r.rewards.value) == 1
    ensures r.state.mover == if r.done || gs.dice == 6 then gs.mover else (gs.mover + 1) % NumPlayers
  {
    var played := match mv
      case Some(m) => gs.(board := ApplyMarbleMoves(gs.board, m.marbleMoves), moveNumber := gs.moveNumber + 1)
      case None => gs;
    var rewards := IsOver(played);
    OneWinner(played);
    var done := rewards.Some?;
    var mover := if !done && gs.dice != 6 then (gs.mover + 1) % NumPlayers else gs.mover;
    MejnStep(played.(mover := mover, dice := next), rewards, done)
  }

  // ----------------------------------------------------- board invariant

  /** Every allowed move keeps the board well formed: all sixteen marbles
      stay on board fields, one per field, and the pens hold only their
      own colour. */
  lemma StepKeepsBoard(gs: MejnState, mv: MejnMove, next: Die)
    requires WellFormed(Mejn, gs.board) && mv in AllowedMoves(gs)
    ensures WellFormed(Mejn, Step(gs, Some(mv), next).state.board)
  {
    MoveKeepsBoard(gs, mv);
  }

  lemma MoveKeepsBoard(gs: MejnState, mv: MejnMove)
    requires WellFormed(Mejn, gs.board) && mv in AllowedMoves(gs)
    ensures WellFormed(Mejn, ApplyMarbleMoves(gs.board, mv.marbleMoves))
  {
    AllowedSound(gs);
    match mv.kind
    case MejnStart =>
      StartKeepsBoard(gs.board, mv.marbleMoves[0].marble);
    case MejnRun =>
      assert mv.marbleMoves == [mv.marbleMoves[0]];
      RunKeepsBoard(gs.board, gs.dice, mv.marbleMoves[0].marble);
    case MejnNone =>
  }

  /** A START puts the marble on its empty start field and moves no one
      else. */
  lemma StartKeepsBoard(b: Board, m: Marble)
    requires WellFormed(Mejn, b) && StartField(Mejn, m.color) !in b
    ensures var b' := ApplyMarbleMoves(b, StartOf(b, m).marbleMoves);
            && WellFormed(Mejn, b')
            && FieldOf(b', m) == Some(StartField(Mejn, m.color))
            && forall x :: x != m ==> FieldOf(b', x) == FieldOf(b, x)
  {
    var mm := StartOf(b, m).marbleMoves[0];
    assert HitMoves(Mejn, mm.to, b) == [];
    MarbleMoveKeepsBoard(Mejn, b, mm);
  }

  /** A RUN puts the marble `dice` places further along its route, sends
      the marble it lands on (if any) to a free wait field of that
      marble's colour, and moves no one else. */
  lemma RunKeepsBoard(b: Board, dice: Die, m: Marble)
    requires WellFormed(Mejn, b) && RunOf(b, dice, m).Some?
    ensures var mm := RunOf(b, dice, m).value.marbleMoves[0];
            var b' := ApplyMarbleMoves(b, [mm]);
            && WellFormed(Mejn, b')
            && FieldOf(b', m) == Some(mm.to)
            && Route(m.color, mm.to) == Route(m.color, FieldOf(b, m).value) + dice
            && (mm.to in b ==> b[mm.to] != m && FieldOf(b', b[mm.to]) == mm.hits[0].to && mm.hits[0].to.Some?)
            && forall x :: x != m && (mm.to in b ==> x != b[mm.to]) ==> FieldOf(b', x) == FieldOf(b, x)
  {
    var mm := RunOf(b, dice, m).value.marbleMoves[0];
    var f := mm.from.value;
    assert Kind(Mejn, mm.to) != Wait;
    if mm.to in b && b[mm.to] == m {
      FieldOfOnInjective(b, mm.to);
      assert false;
    }
    MarbleMoveKeepsBoard(Mejn, b, mm);
    if mm.to in b {
      HitAlwaysLands(Mejn, mm.to, b);
    }
  }
}
