/** The action ids of mejn moves (mejn/move.py `_get_raw_action`) and the
    table of all 29 of them (mejn/game.py `GameActions.ALL_ACTIONS_29`):
    "NO" for the NONE move, "STP" and the marble's index for a START, and
    "RU", the steps padded to two digits, "P" and the marble's index for a
    RUN. */
module MejnActions {
  import opened Common
  import opened Layout
  import opened BoardState
  import opened Moves
  import opened MejnGame

  /** What an action id says: the kind of move, and for START and RUN the
      index of the marble (its `raw_id`), and for RUN the steps. */
  datatype MejnCode = NoCode | StartCode(idx: nat) | RunCode(steps: nat, idx: nat)

  function Encode(a: MejnCode): (s: string)
  {
    match a
    case NoCode => "NO"
    case StartCode(i) => "STP" + NatStr(i)
    case RunCode(n, i) => "RU" + ZFill2(n) + "P" + NatStr(i)
  }

  /** The codes whose numbers fit the id's digits: one digit for the
      marble, two for the steps. */
  predicate Valid(a: MejnCode)
  {
    match a
    case NoCode => true
    case StartCode(i) => i < 10
    case RunCode(n, i) => n < 100 && i < 10
  }

  /** Reads an id back. */
  function Decode(s: string): Option<MejnCode>
  {
    if s == "NO" then Some(NoCode)
    else if |s| == 4 && s[..3] == "STP" then
      (match DigitValue(s[3])
       case Some(i) => Some(StartCode(i))
       case None => None)
    else if |s| == 6 && s[..2] == "RU" && s[4] == 'P' then
      (match (TwoDigits(s[2], s[3]), DigitValue(s[5]))
       case (Some(n), Some(i)) => Some(RunCode(n, i))
       case _ => None)
    else None
  }

  /** Every valid code's id reads back as that code. */
  lemma DecodeEncode(a: MejnCode)
    requires Valid(a)
    ensures Decode(Encode(a)) == Some(a)
  {
    match a
    case NoCode =>
    case StartCode(i) => StartRoundTrip(i);
    case RunCode(n, i) => RunRoundTrip(n, i);
  }

  lemma StartRoundTrip(i: nat)
    requires i < 10
    ensures Decode(Encode(StartCode(i))) == Some(StartCode(i))
  {
    var s := Encode(StartCode(i));
    DigitRoundTrip(i);
    assert s == ['S', 'T', 'P', Digit(i)];
    assert s[..3] == "STP";
  }

  lemma RunRoundTrip(n: nat, i: nat)
    requires n < 100 && i < 10
    ensures Decode(Encode(RunCode(n, i))) == Some(RunCode(n, i))
  {
    var s := Encode(RunCode(n, i));
    DigitRoundTrip(n / 10);
    DigitRoundTrip(n % 10);
    DigitRoundTrip(i);
    assert s == ['R', 'U', Digit(n / 10), Digit(n % 10), 'P', Digit(i)];
    assert s[..2] == "RU";
    assert TwoDigits(s[2], s[3]) == Some(n);
  }

  /** Every string that reads as a code is that code's id. */
  lemma EncodeDecode(s: string)
    requires Decode(s).Some?
    ensures Valid(Decode(s).value) && Encode(Decode(s).value) == s
  {
    if s != "NO" {
      if |s| == 4 && s[..3] == "STP" {
        DigitChar(s[3]);
        assert s == s[..3] + [s[3]];
      } else {
        PaddedDigits(s[2], s[3]);
        DigitChar(s[5]);
        assert s == s[..2] + [s[2], s[3]] + "P" + [s[5]];
      }
    }
  }

  /** Two valid codes with the same id are the same code. */
  lemma EncodeInjective(a: MejnCode, a': MejnCode)
    requires Valid(a) && Valid(a') && Encode(a) == Encode(a')
    ensures a == a'
  {
    DecodeEncode(a);
    DecodeEncode(a');
  }

  // ------------------------------------------------------------ the table

  /** `GameActions.ALL_ACTIONS_29`, the action space of the mejn game. */
  const AllActions29: seq<string> :=
    ["NO", "RU01P0", "RU01P1", "RU01P2", "RU01P3", "RU02P0", "RU02P1", "RU02P2", "RU02P3", "RU03P0",
     "RU03P1", "RU03P2", "RU03P3", "RU04P0", "RU04P1", "RU04P2", "RU04P3", "RU05P0", "RU05P1",
     "RU05P2", "RU05P3", "RU06P0", "RU06P1", "RU06P2", "RU06P3", "STP0", "STP1", "STP2", "STP3"]

  /** The codes a game can produce: a die of 1 to 6 steps and one of a
      colour's four marbles. */
  predicate InTable(a: MejnCode)
  {
    match a
    case NoCode => true
    case StartCode(i) => i < 4
    case RunCode(n, i) => 1 <= n <= 6 && i < 4
  }

  /** The code listed at position k of the table. */
  function TableCode(k: nat): (a: MejnCode)
    requires k < 29
    ensures InTable(a)
  {
    if k == 0 then NoCode
    else if k < 25 then RunCode((k - 1) / 4 + 1, (k - 1) % 4)
    else StartCode(k - 25)
  }

  /** Where a code stands in the table. */
  function TableIndex(a: MejnCode): (k: nat)
    requires InTable(a)
    ensures k < 29 && TableCode(k) == a
  {
    match a
    case NoCode => 0
    case RunCode(n, i) => 1 + 4 * (n - 1) + i
    case StartCode(i) => 25 + i
  }

  /** Position k of the table holds the id of the k-th code. */
  lemma TableListsIds(k: nat)
    requires k < 29
    ensures |AllActions29| == 29
    ensures AllActions29[k] == Encode(TableCode(k))
  {
    var a := TableCode(k);
    assert Encode(a) == TableId(k) by {
      match a
      case NoCode =>
      case StartCode(i) =>
      case RunCode(n, i) =>
    }
    if k < 9 {
      TableFront(k);
    } else if k < 17 {
      TableMiddle(k);
    } else if k < 25 {
      TableBack(k);
    } else {
      TableEnd(k);
    }
  }

  /** The id at position k, spelled out digit by digit. */
  function TableId(k: nat): string
    requires k < 29
  {
    if k == 0 then "NO"
    else if k < 25 then "RU" + [Digit(0), Digit((k - 1) / 4 + 1)] + "P" + [Digit((k - 1) % 4)]
    else "STP" + [Digit(k - 25)]
  }

  lemma TableFront(k: nat)
    requires k < 9
    ensures AllActions29[k] == TableId(k)
  {
    if k == 0 {
    } else if k < 5 {
    } else {
    }
  }

  lemma TableMiddle(k: nat)
    requires 9 <= k < 17
    ensures AllActions29[k] == TableId(k)
  {
    if k < 13 {
    } else {
    }
  }

  lemma TableBack(k: nat)
    requires 17 <= k < 25
    ensures AllActions29[k] == TableId(k)
  {
    if k < 21 {
    } else {
    }
  }

  lemma TableEnd(k: nat)
    requires 25 <= k < 29
    ensures AllActions29[k] == TableId(k)
  {
  }

  /** Every code a game can produce has its id in the table, at the
      position `TableIndex` gives. */
  lemma IdInTable(a: MejnCode)
    requires InTable(a)
    ensures AllActions29[TableIndex(a)] == Encode(a)
    ensures Encode(a) in AllActions29
  {
    TableListsIds(TableIndex(a));
  }

  /** The table holds nothing but ids of codes a game can produce: each
      entry reads back as the code at its position. */
  lemma TableEntryDecodes(k: nat)
    requires k < |AllActions29|
    ensures Decode(AllActions29[k]) == Some(TableCode(k))
  {
    TableListsIds(k);
    DecodeEncode(TableCode(k));
  }

  // ------------------------------------------------------ moves to codes

  /** `Move._get_raw_action`: "NO" for NONE; for START and RUN the first
      marble move's marble, which must exist (the source raises on an
      empty list). */
  function RawAction(mv: MejnMove): (r: Option<MejnCode>)
    ensures r.None? <==> mv.kind != MejnNone && mv.marbleMoves == []
    ensures mv.kind == MejnNone ==> r == Some(NoCode)
    ensures r.Some? && mv.kind == MejnStart ==> r.value == StartCode(mv.marbleMoves[0].marble.idx)
    ensures r.Some? && mv.kind == MejnRun ==> r.value == RunCode(mv.steps, mv.marbleMoves[0].marble.idx)
  {
    match mv.kind
    case MejnNone => Some(NoCode)
    case MejnStart => if mv.marbleMoves == [] then None else Some(StartCode(mv.marbleMoves[0].marble.idx))
    case MejnRun => if mv.marbleMoves == [] then None else Some(RunCode(mv.steps, mv.marbleMoves[0].marble.idx))
  }

  /** The id of a move: `raw_action`. */
  function ActionId(mv: MejnMove): Option<string>
  {
    match RawAction(mv)
    case Some(a) => Some(Encode(a))
    case None => None
  }

  /** Every allowed move has an id, and it is listed in the action table:
      a RUN's steps are a throw of the die and its marble one of four. */
  lemma AllowedIdsListed(gs: MejnState)
    ensures forall mv :: mv in AllowedMoves(gs) ==>
              && RawAction(mv).Some? && InTable(RawAction(mv).value)
              && ActionId(mv).Some? && ActionId(mv).value in AllActions29
  {
    AllowedSound(gs);
    forall mv | mv in AllowedMoves(gs)
      ensures RawAction(mv).Some? && InTable(RawAction(mv).value)
      ensures ActionId(mv).Some? && ActionId(mv).value in AllActions29
    {
      if mv.kind == MejnNone {
        assert RawAction(mv) == Some(NoCode);
      } else {
        assert |mv.marbleMoves| == 1;
        if mv.kind == MejnRun {
          assert mv.steps == gs.dice;
        }
      }
      IdInTable(RawAction(mv).value);
    }
  }

  /** An allowed move's id, read back, names the move: "NO" the NONE move,
      "STP" and an index the START of that marble of the player to move,
      and a RUN id the RUN of that marble by the die's number of steps. */
  lemma AllowedIdDecodes(gs: MejnState, mv: MejnMove)
    requires mv in AllowedMoves(gs)
    ensures ActionId(mv).Some? && Decode(ActionId(mv).value).Some?
    ensures var a := Decode(ActionId(mv).value).value;
            && (a.NoCode? ==> mv == NoMove(gs.mover))
            && (a.StartCode? ==> a.idx < 4 && mv == StartOf(gs.board, Marble(gs.mover, a.idx)))
            && (a.RunCode? ==> a.idx < 4 && a.steps == gs.dice && RunOf(gs.board, gs.dice, Marble(gs.mover, a.idx)) == Some(mv))
  {
    AllowedIdsListed(gs);
    AllowedSound(gs);
    var a := RawAction(mv).value;
    DecodeEncode(a);
    if mv.kind != MejnNone {
      var m := mv.marbleMoves[0].marble;
      assert Marble(gs.mover, m.idx) == m;
    }
  }

  /** No two allowed moves share an id, so an id picks out one allowed
      move. */
  lemma AllowedIdsDistinct(gs: MejnState, mv: MejnMove, mv': MejnMove)
    requires mv in AllowedMoves(gs) && mv' in AllowedMoves(gs)
    requires ActionId(mv) == ActionId(mv')
    ensures mv == mv'
  {
    AllowedIdsListed(gs);
    AllowedSound(gs);
    var a, a' := RawAction(mv).value, RawAction(mv').value;
    EncodeInjective(a, a');
    if mv.kind != MejnNone {
      var m, m' := mv.marbleMoves[0].marble, mv'.marbleMoves[0].marble;
      assert m.idx == m'.idx && m.color == m'.color;
    }
  }
}
