/** The action ids of Keezen moves (keezen/move.py `get_raw_action` and
    `get_marble_position`): each move becomes a short string naming its
    kind, the card played and the marbles moved, where a marble is named
    by its position rank among the marbles of its colour along that
    colour's path round the board (board.py `PATH_FOR_LOCATION`). */
module KeezenActions {
  import opened Common
  import opened Layout
  import opened BoardState
  import opened Cards
  import opened Moves
  import opened Seats

  // ---------------------------------------------------------------- paths

  /** The fields a marble of one colour can stand on, in the order it
      passes them: its four wait fields, its start field and the rest of
      its own track, the track of the three blocks after it, its own
      junction, and its home fields from the entrance to the dead end. */
  const PathLength: nat := 72

  /** The field at index i of colour b's block. */
  function Cell(b: Color, i: nat): (f: Field)
    requires i < 24
    ensures IsField(Keezen, f) && Block(Keezen, f) == b && Index(Keezen, f) == i
  {
    Decompose(Keezen, b, i);
    b * 24 + i
  }

  /** The colour d seats after colour c. */
  function Later(c: Color, d: nat): (r: Color)
    requires d < 4
    ensures r == (c + d) % 4
  {
    if c + d < 4 then c + d else c + d - 4
  }

  /** How many seats after colour c colour b comes: 1, 2 or 3 for another
      colour. */
  function Gap(c: Color, b: Color): (d: nat)
    ensures d < 4 && Later(c, d) == b
    ensures b != c ==> 1 <= d
  {
    if b >= c then b - c else b - c + 4
  }

  /** `PATH_FOR_LOCATION[c][k]`, as a formula over the 24-field blocks:
      the block and the index in it of the k-th field of colour c's path. */
  function PathCell(c: Color, k: nat): (bi: (Color, nat))
    requires k < PathLength
    ensures bi.1 < 24
  {
    if k < 4 then (c, 20 + k)
    else if k < 19 then (c, k + 1)
    else if k < 35 then (Later(c, 1), k - 15)
    else if k < 51 then (Later(c, 2), k - 31)
    else if k < 67 then (Later(c, 3), k - 47)
    else (c, 71 - k)
  }

  function PathAt(c: Color, k: nat): (f: Field)
    requires k < PathLength
  {
    Cell(PathCell(c, k).0, PathCell(c, k).1)
  }

  /** `PATH_FOR_LOCATION[c].index(f)`: where field f lies on colour c's
      path, and None for a field off that path (where `index` raises). */
  function PathIndex(c: Color, f: Field): (r: Option<nat>)
  {
    if !IsField(Keezen, f) then None
    else
      FieldParts(Keezen, f);
      CellIndex(c, Block(Keezen, f), Index(Keezen, f))
  }

  /** Where the field at index i of block b lies on colour c's path. */
  function CellIndex(c: Color, b: Color, i: nat): Option<nat>
  {
    if b == c then
      if i >= 24 then None
      else if i >= 20 then Some(i - 20)
      else if i >= 5 then Some(i - 1)
      else Some(71 - i)
    else if 4 <= i < 20 then Some(19 + 16 * (Gap(c, b) - 1) + (i - 4))
    else None
  }

  /** Every place on the path holds a field, and the path visits no field
      twice: looking the field up gives the place back. */
  lemma PathRoundTrip(c: Color, k: nat)
    requires k < PathLength
    ensures IsField(Keezen, PathAt(c, k))
    ensures PathIndex(c, PathAt(c, k)) == Some(k)
  {
    CellRoundTrip(c, k);
  }

  lemma CellRoundTrip(c: Color, k: nat)
    requires k < PathLength
    ensures CellIndex(c, PathCell(c, k).0, PathCell(c, k).1) == Some(k)
  {
    if 19 <= k < 67 {
      var d := if k < 35 then 1 else if k < 51 then 2 else 3;
      assert PathCell(c, k).0 == Later(c, d);
      LaterGap(c, d);
    }
  }

  /** Counting d seats on from c and back again gives d. */
  lemma LaterGap(c: Color, d: nat)
    requires d < 4
    ensures Gap(c, Later(c, d)) == d
  {
  }

  /** A found field is the field at that place. */
  lemma PathIndexInverse(c: Color, f: Field)
    requires PathIndex(c, f).Some?
    ensures PathIndex(c, f).value < PathLength
    ensures PathAt(c, PathIndex(c, f).value) == f
  {
    FieldParts(Keezen, f);
    var b, i := Block(Keezen, f), Index(Keezen, f);
    CellIndexInverse(c, b, i);
    SameCell(f, PathAt(c, PathIndex(c, f).value));
  }

  lemma CellIndexInverse(c: Color, b: Color, i: nat)
    requires CellIndex(c, b, i).Some?
    ensures CellIndex(c, b, i).value < PathLength
    ensures PathCell(c, CellIndex(c, b, i).value) == (b, i)
  {
    if b != c {
      var d := Gap(c, b);
      assert Later(c, d) == b;
    }
  }

  /** The path holds the fields of its own colour's block and the track
      fields (NORMAL and START) of the other blocks, and nothing else. */
  lemma OnPath(c: Color, f: Field)
    ensures PathIndex(c, f).Some? <==>
              IsField(Keezen, f) &&
              (Block(Keezen, f) == c || Kind(Keezen, f) == Normal || Kind(Keezen, f) == Start)
  {
  }

  /** The path starts with the colour's wait fields in order, continues
      from its start field along the board's `next_fields` links, and ends
      on its last home field. */
  lemma PathShape(c: Color, k: nat)
    requires k < PathLength
    ensures k < 4 ==> PathAt(c, k) == WaitField(Keezen, c, k)
    ensures PathAt(c, 4) == StartField(Keezen, c)
    ensures PathAt(c, PathLength - 1) == LastHomeField(Keezen, c)
    ensures 4 <= k < PathLength - 1 ==> PathAt(c, k + 1) in NextFields(Keezen, PathAt(c, k))
  {
    if 4 <= k < PathLength - 1 {
      PathStep(c, k);
    }
  }

  /** The board's successors of the field at index i of block b: the
      next track field, the next block's junction after the last track
      field, the start field or the home entrance from the junction, and
      the next home field inside the home. */
  lemma CellNextTrack(b: Color, i: nat)
    requires 5 <= i < 19
    ensures NextFields(Keezen, Cell(b, i)) == [Cell(b, i + 1)]
  {
    assert Cell(b, i + 1) == Cell(b, i) + 1;
  }

  lemma CellNextLast(b: Color)
    ensures NextFields(Keezen, Cell(b, 19)) == [Cell(Later(b, 1), 4)]
  {
    var f := Cell(b, 19);
    AdjacencyShape(Keezen, f);
    var x := NextFields(Keezen, f)[0];
    FieldParts(Keezen, x);
    SameCell(x, Cell(Later(b, 1), 4));
  }

  /** A field is fixed by its block and its index. */
  lemma SameCell(x: Field, y: Field)
    requires IsField(Keezen, x) && IsField(Keezen, y)
    requires Block(Keezen, x) == Block(Keezen, y) && Index(Keezen, x) == Index(Keezen, y)
    ensures x == y
  {
    FieldParts(Keezen, x);
    FieldParts(Keezen, y);
  }

  lemma CellNextJunction(b: Color)
    ensures NextFields(Keezen, Cell(b, 4)) == [Cell(b, 5), Cell(b, 3)]
  {
    assert Cell(b, 5) == Cell(b, 4) + 1 && Cell(b, 3) == Cell(b, 4) - 1;
  }

  lemma CellNextHome(b: Color, i: nat)
    requires 1 <= i <= 3
    ensures NextFields(Keezen, Cell(b, i)) == [Cell(b, i - 1)]
  {
    var f := Cell(b, i);
    HomeNext(f);
    assert Cell(b, i - 1) == f - 1;
  }

  /** Inside a home the only way on is one field further in. */
  lemma HomeNext(f: Field)
    requires 1 <= Index(Keezen, f) <= 3
    ensures NextFields(Keezen, f) == [f - 1]
  {
  }

  lemma PathStep(c: Color, k: nat)
    requires 4 <= k < PathLength - 1
    ensures PathAt(c, k + 1) in NextFields(Keezen, PathAt(c, k))
  {
    var (b, i) := PathCell(c, k);
    if k < 18 {
      CellNextTrack(b, i);
    } else if k == 18 {
      CellNextLast(b);
    } else if k < 66 {
      TrackStep(c, k);
    } else if k == 66 {
      CellNextLast(b);
      assert Later(Later(c, 3), 1) == c;
    } else if k == 67 {
      CellNextJunction(b);
    } else {
      CellNextHome(b, i);
    }
  }

  /** On the other blocks' track the path moves one field on, or from the
      last track field of a block to the junction of the next. */
  lemma TrackStep(c: Color, k: nat)
    requires 19 <= k < 66
    ensures PathAt(c, k + 1) in NextFields(Keezen, PathAt(c, k))
  {
    var (b, i) := PathCell(c, k);
    if k == 34 || k == 50 {
      CellNextLast(b);
      assert Later(b, 1) == PathCell(c, k + 1).0;
    } else if i == 4 {
      CellNextJunction(b);
    } else {
      CellNextTrack(b, i);
    }
  }

  // -------------------------------------------------------- position rank

  /** Where marble m stands on the path of its own colour: the source
      picks `PATH_FOR_LOCATION[player_idx]` with `player_idx` the seat of
      the marble's colour, which is the colour itself. None when the
      marble is off the board or off that path. */
  function Slot(b: Board, m: Marble): (r: Option<nat>)
    ensures r.Some? ==> r.value < PathLength
  {
    match FieldOf(b, m)
    case None => None
    case Some(f) =>
      if PathIndex(m.color, f).Some? then PathIndexInverse(m.color, f); PathIndex(m.color, f)
      else None
  }

  /** The slots of colour c's four marbles by `raw_id`, when all of them
      are on the path. */
  function Slots(b: Board, c: Color): (r: Option<seq<nat>>)
    ensures r.Some? <==> forall i: MarbleIdx :: Slot(b, Marble(c, i)).Some?
    ensures r.Some? ==> && |r.value| == MarblesPerColor
                        && forall i: MarbleIdx :: Slot(b, Marble(c, i)) == Some(r.value[i])
  {
    var s0, s1, s2, s3 := Slot(b, Marble(c, 0)), Slot(b, Marble(c, 1)), Slot(b, Marble(c, 2)), Slot(b, Marble(c, 3));
    if s0.Some? && s1.Some? && s2.Some? && s3.Some? then Some([s0.value, s1.value, s2.value, s3.value])
    else None
  }

  /** How many of the first n entries of s, other than entry i, lie
      strictly beyond entry i. */
  function Ahead(s: seq<nat>, i: nat, n: nat): (r: nat)
    requires i < |s| && n <= |s|
    ensures r + (if i < n then 1 else 0) <= n
  {
    if n == 0 then 0
    else Ahead(s, i, n - 1) + (if n - 1 != i && s[n - 1] > s[i] then 1 else 0)
  }

  /** `get_marble_position`: the number of the marble's three team mates
      of the same colour that stand strictly further along the path. The
      source raises when one of the four is not on the path. */
  function MarblePosition(b: Board, m: Marble): (r: Option<nat>)
    ensures r.Some? <==> Slots(b, m.color).Some?
    ensures r.Some? ==> r.value < MarblesPerColor
  {
    match Slots(b, m.color)
    case None => None
    case Some(s) => Some(Ahead(s, m.idx, MarblesPerColor))
  }

  /** `Ahead` counts exactly the entries beyond entry i. */
  lemma {:induction false} AheadIsCount(s: seq<nat>, i: nat, n: nat)
    requires i < |s| && n <= |s|
    ensures Ahead(s, i, n) == |Beyond(s, i, n)|
  {
    if n > 0 {
      AheadIsCount(s, i, n - 1);
      BeyondStep(s, i, n);
    }
  }

  /** The indices below n, other than i, whose entries lie beyond entry i. */
  ghost function Beyond(s: seq<nat>, i: nat, n: nat): set<nat>
    requires i < |s| && n <= |s|
  {
    set j: nat | j < n && j != i && s[j] > s[i]
  }

  lemma BeyondStep(s: seq<nat>, i: nat, n: nat)
    requires i < |s| && 0 < n <= |s|
    ensures n - 1 !in Beyond(s, i, n - 1)
    ensures Beyond(s, i, n) == Beyond(s, i, n - 1) + (if n - 1 != i && s[n - 1] > s[i] then {n - 1} else {})
  {
  }

  /** An entry further along has fewer entries beyond it: everything
      beyond it is beyond the other one too, and so is the entry itself. */
  lemma {:induction false} AheadOrder(s: seq<nat>, a: nat, b: nat, n: nat)
    requires a < |s| && b < |s| && n <= |s|
    requires s[a] > s[b]
    ensures Ahead(s, a, n) + (if a < n then 1 else 0) <= Ahead(s, b, n)
  {
    if n > 0 {
      AheadOrder(s, a, b, n - 1);
    }
  }

  /** Nothing is beyond entry i exactly when no other entry is larger. */
  lemma {:induction false} AheadZero(s: seq<nat>, i: nat, n: nat)
    requires i < |s| && n <= |s|
    ensures Ahead(s, i, n) == 0 <==> forall j :: 0 <= j < n && j != i ==> s[j] <= s[i]
  {
    if n > 0 {
      AheadZero(s, i, n - 1);
    }
  }

  /** Two marbles never share a place on the path: each stands on its
      own field. */
  lemma SlotsDistinct(b: Board, m1: Marble, m2: Marble)
    requires m1.color == m2.color && m1 != m2
    requires Slot(b, m1).Some? && Slot(b, m2).Some?
    ensures Slot(b, m1) != Slot(b, m2)
  {
    var f1, f2 := FieldOf(b, m1).value, FieldOf(b, m2).value;
    PathIndexInverse(m1.color, f1);
    PathIndexInverse(m2.color, f2);
    assert b[f1] == m1 && b[f2] == m2;
  }

  /** The ranks order the marbles of a colour by progress: a marble
      further along the path gets a smaller number. */
  lemma PositionOrder(b: Board, m1: Marble, m2: Marble)
    requires m1.color == m2.color && MarblePosition(b, m1).Some?
    requires Slot(b, m1).value > Slot(b, m2).value
    ensures MarblePosition(b, m1).value < MarblePosition(b, m2).value
  {
    var s := Slots(b, m1.color).value;
    AheadOrder(s, m1.idx, m2.idx, MarblesPerColor);
  }

  /** The four marbles of a colour get four different ranks, so the ranks
      are 0, 1, 2 and 3 in some order. */
  lemma PositionsDistinct(b: Board, m1: Marble, m2: Marble)
    requires m1.color == m2.color && m1 != m2 && MarblePosition(b, m1).Some?
    ensures MarblePosition(b, m1) != MarblePosition(b, m2)
  {
    SlotsDistinct(b, m1, m2);
    if Slot(b, m1).value > Slot(b, m2).value {
      PositionOrder(b, m1, m2);
    } else {
      PositionOrder(b, m2, m1);
    }
  }

  /** Rank 0 is the most advanced marble of its colour, and the rank is
      the number of marbles of that colour further along. */
  lemma PositionMeaning(b: Board, m: Marble)
    requires MarblePosition(b, m).Some?
    ensures var s := Slots(b, m.color).value;
            MarblePosition(b, m).value == |set j: nat | j < MarblesPerColor && j != m.idx && s[j] > s[m.idx]|
    ensures MarblePosition(b, m).value == 0 <==>
              forall m': Marble :: m'.color == m.color && m' != m ==> Slot(b, m').value < Slot(b, m).value
  {
    var s := Slots(b, m.color).value;
    AheadIsCount(s, m.idx, MarblesPerColor);
    AheadZero(s, m.idx, MarblesPerColor);
    forall m': Marble | m'.color == m.color && m' != m
      ensures Slot(b, m').value != Slot(b, m).value
    {
      SlotsDistinct(b, m', m);
    }
    if MarblePosition(b, m).value == 0 {
      forall m': Marble | m'.color == m.color && m' != m
        ensures Slot(b, m').value < Slot(b, m).value
      {
        assert s[m'.idx] <= s[m.idx];
      }
    } else {
      var j :| 0 <= j < MarblesPerColor && j != m.idx && s[j] > s[m.idx];
      assert Slot(b, Marble(m.color, j)).value > Slot(b, m).value;
    }
  }
  // ----------------------------------------------------------- action ids

  /** What follows the first marble's rank: nothing, or the second
      marble's rank after a letter naming whose marble it is: "P" the
      mover's own colour, "T" the team mate's, "A" the next seat's, "B"
      the remaining opponent's. */
  datatype Tail = NoTail | OwnTail(pos: nat) | MateTail(pos: nat) | NextTail(pos: nat) | OtherTail(pos: nat)

  /** The extra part of a two-marble SPLIT: the first marble's step count
      and the tail. */
  datatype SplitRest = SplitRest(steps: nat, tail: Tail)

  /** An action id, parsed: the card is the played card's value (1 for
      the ace up to 13 for the king), pos the first marble's rank. */
  datatype ActionCode =
    | ThrowCode
    | DealCode
    | StartCode(card: nat, pos: nat)
    | RunCode(card: nat, pos: nat)
    | SplitCode(card: nat, pos: nat, rest: Option<SplitRest>)
    | SwitchCode(card: nat, pos: nat, tail: Tail)

  /** The move type an action id stands for. */
  function CodeKind(a: ActionCode): MoveType
  {
    match a
    case ThrowCode => ThrowCards
    case DealCode => DealMove
    case StartCode(_, _) => StartMove
    case RunCode(_, _) => RunMove
    case SplitCode(_, _, _) => SplitMove
    case SwitchCode(_, _, _) => SwitchMove
  }

  function TailString(t: Tail): string
  {
    match t
    case NoTail => ""
    case OwnTail(p) => "P" + NatStr(p)
    case MateTail(p) => "T" + NatStr(p)
    case NextTail(p) => "A" + NatStr(p)
    case OtherTail(p) => "B" + NatStr(p)
  }

  /** The id as `get_raw_action` writes it: two letters for the kind, the
      card value padded to two digits, "P", the first marble's rank, and
      for SPLIT and SWITCH what the second marble adds. */
  function Encode(a: ActionCode): string
  {
    match a
    case ThrowCode => "TC"
    case DealCode => "DL"
    case StartCode(v, p) => "ST" + ZFill2(v) + "P" + NatStr(p)
    case RunCode(v, p) => "RU" + ZFill2(v) + "P" + NatStr(p)
    case SplitCode(v, p, rest) =>
      "SP" + ZFill2(v) + "P" + NatStr(p) +
        (if rest.None? then "" else NatStr(rest.value.steps) + TailString(rest.value.tail))
    case SwitchCode(v, p, t) => "SW" + ZFill2(v) + "P" + NatStr(p) + TailString(t)
  }

  /** Codes whose numbers fit the digits the id reserves for them. */
  predicate ValidTail(t: Tail)
  {
    !t.NoTail? ==> t.pos < 10
  }

  predicate Valid(a: ActionCode)
  {
    match a
    case ThrowCode => true
    case DealCode => true
    case StartCode(v, p) => v < 100 && p < 10
    case RunCode(v, p) => v < 100 && p < 10
    case SplitCode(v, p, rest) =>
      v < 100 && p < 10 && (rest.Some? ==> rest.value.steps < 10 && ValidTail(rest.value.tail))
    case SwitchCode(v, p, t) => v < 100 && p < 10 && ValidTail(t)
  }

  function DecodeTail(t: string): Option<Tail>
  {
    if t == "" then Some(NoTail)
    else if |t| != 2 then None
    else
      match DigitValue(t[1])
      case None => None
      case Some(p) =>
        if t[0] == 'P' then Some(OwnTail(p))
        else if t[0] == 'T' then Some(MateTail(p))
        else if t[0] == 'A' then Some(NextTail(p))
        else if t[0] == 'B' then Some(OtherTail(p))
        else None
  }

  /** Reading an action id back; None for a string no code writes. */
  function Decode(s: string): Option<ActionCode>
  {
    if s == "TC" then Some(ThrowCode)
    else if s == "DL" then Some(DealCode)
    else if |s| < 6 || s[4] != 'P' then None
    else
      match (TwoDigits(s[2], s[3]), DigitValue(s[5]))
      case (Some(v), Some(p)) => DecodeBody(s[..2], v, p, s[6..])
      case _ => None
  }

  function DecodeBody(head: string, v: nat, p: nat, rest: string): Option<ActionCode>
  {
    if head == "ST" then (if rest == "" then Some(StartCode(v, p)) else None)
    else if head == "RU" then (if rest == "" then Some(RunCode(v, p)) else None)
    else if head == "SP" then
      if rest == "" then Some(SplitCode(v, p, None))
      else
        match (DigitValue(rest[0]), DecodeTail(rest[1..]))
        case (Some(n), Some(t)) => Some(SplitCode(v, p, Some(SplitRest(n, t))))
        case _ => None
    else if head == "SW" then
      match DecodeTail(rest)
      case Some(t) => Some(SwitchCode(v, p, t))
      case None => None
    else None
  }

  /** The digit characters and their values. */
  lemma TailRoundTrip(t: Tail)
    requires ValidTail(t)
    ensures DecodeTail(TailString(t)) == Some(t)
  {
    if !t.NoTail? {
      DigitRoundTrip(t.pos);
    }
  }

  lemma TailDecoded(x: string)
    requires DecodeTail(x).Some?
    ensures ValidTail(DecodeTail(x).value) && TailString(DecodeTail(x).value) == x
  {
    if x != "" {
      DigitChar(x[1]);
      assert x == [x[0]] + [x[1]];
    }
  }

  /** Every valid code is read back from its id. */
  lemma DecodeEncode(a: ActionCode)
    requires Valid(a)
    ensures Decode(Encode(a)) == Some(a)
  {
    if !a.ThrowCode? && !a.DealCode? {
      var rest := CodeRest(a);
      DecodeAt(CodeHead(a), a.card, a.pos, rest);
      assert Encode(a) == CodeHead(a) + ZFill2(a.card) + "P" + NatStr(a.pos) + rest;
      BodyOfCode(a);
    }
  }

  /** The two letters of a code's id and what follows the first rank. */
  function CodeHead(a: ActionCode): string
  {
    match a
    case ThrowCode => "TC"
    case DealCode => "DL"
    case StartCode(_, _) => "ST"
    case RunCode(_, _) => "RU"
    case SplitCode(_, _, _) => "SP"
    case SwitchCode(_, _, _) => "SW"
  }

  function CodeRest(a: ActionCode): string
  {
    match a
    case SplitCode(_, _, rest) =>
      if rest.None? then "" else NatStr(rest.value.steps) + TailString(rest.value.tail)
    case SwitchCode(_, _, t) => TailString(t)
    case _ => ""
  }

  lemma BodyOfCode(a: ActionCode)
    requires Valid(a) && !a.ThrowCode? && !a.DealCode?
    ensures DecodeBody(CodeHead(a), a.card, a.pos, CodeRest(a)) == Some(a)
  {
    match a
    case StartCode(_, _) =>
    case RunCode(_, _) =>
    case SplitCode(v, p, rest) =>
      if rest.Some? {
        var r := CodeRest(a);
        DigitRoundTrip(rest.value.steps);
        TailRoundTrip(rest.value.tail);
        assert r[0] == Digit(rest.value.steps);
        assert r[1..] == TailString(rest.value.tail);
      }
    case SwitchCode(_, _, t) =>
      TailRoundTrip(t);
  }

  /** The fixed-width part of an id reads back as written. */
  lemma DecodeAt(head: string, v: nat, p: nat, rest: string)
    requires |head| == 2 && v < 100 && p < 10
    ensures Decode(head + ZFill2(v) + "P" + NatStr(p) + rest) == DecodeBody(head, v, p, rest)
  {
    var s := head + ZFill2(v) + "P" + NatStr(p) + rest;
    DigitRoundTrip(v / 10);
    DigitRoundTrip(v % 10);
    DigitRoundTrip(p);
    assert s[2] == Digit(v / 10) && s[3] == Digit(v % 10) && s[4] == 'P' && s[5] == Digit(p);
    assert TwoDigits(s[2], s[3]) == Some(v);
    assert s[..2] == head && s[6..] == rest;
  }

  /** Every string that reads as a code is that code's id: no two ids
      read as the same code. */
  lemma EncodeDecode(s: string)
    requires Decode(s).Some?
    ensures Valid(Decode(s).value) && Encode(Decode(s).value) == s
  {
    if s != "TC" && s != "DL" {
      var v, p := TwoDigits(s[2], s[3]).value, DigitValue(s[5]).value;
      IdParts(s);
      BodyDecoded(s[..2], v, p, s[6..]);
    }
  }

  /** A readable id other than "TC" and "DL" is its kind's letters, the
      padded card value, "P", one digit and the rest. */
  lemma IdParts(s: string)
    requires Decode(s).Some? && s != "TC" && s != "DL"
    ensures |s| >= 6 && TwoDigits(s[2], s[3]).Some? && DigitValue(s[5]).Some?
    ensures var v, p := TwoDigits(s[2], s[3]).value, DigitValue(s[5]).value;
            && p < 10
            && s == s[..2] + ZFill2(v) + "P" + NatStr(p) + s[6..]
            && Decode(s) == DecodeBody(s[..2], v, p, s[6..])
  {
    IdJoin(s);
  }

  lemma IdJoin(s: string)
    requires |s| >= 6 && s[4] == 'P' && TwoDigits(s[2], s[3]).Some? && DigitValue(s[5]).Some?
    ensures var v, p := TwoDigits(s[2], s[3]).value, DigitValue(s[5]).value;
            p < 10 && s == s[..2] + ZFill2(v) + "P" + NatStr(p) + s[6..]
  {
    var v, p := TwoDigits(s[2], s[3]).value, DigitValue(s[5]).value;
    PaddedDigits(s[2], s[3]);
    DigitChar(s[5]);
    assert NatStr(p) == [s[5]];
    assert s == s[..2] + [s[2], s[3]] + "P" + [s[5]] + s[6..];
  }

  /** What the kind letters and the rest read as is written back the same
      way. */
  lemma BodyDecoded(head: string, v: nat, p: nat, rest: string)
    requires v < 100 && p < 10 && DecodeBody(head, v, p, rest).Some?
    ensures var a := DecodeBody(head, v, p, rest).value;
            Valid(a) && Encode(a) == head + ZFill2(v) + "P" + NatStr(p) + rest
  {
    var a := DecodeBody(head, v, p, rest).value;
    RestDecoded(head, v, p, rest);
    EncodeParts(a);
  }

  /** What the body reads as has the same letters, numbers and rest. */
  lemma RestDecoded(head: string, v: nat, p: nat, rest: string)
    requires v < 100 && p < 10 && DecodeBody(head, v, p, rest).Some?
    ensures var a := DecodeBody(head, v, p, rest).value;
            && Valid(a) && !a.ThrowCode? && !a.DealCode?
            && CodeHead(a) == head && a.card == v && a.pos == p && CodeRest(a) == rest
  {
    var a := DecodeBody(head, v, p, rest).value;
    if a.SplitCode? && a.rest.Some? {
      DigitChar(rest[0]);
      TailDecoded(rest[1..]);
      assert rest == [rest[0]] + rest[1..];
    } else if a.SwitchCode? {
      TailDecoded(rest);
    }
  }

  /** An id other than "TC" and "DL" is built from its parts. */
  lemma EncodeParts(a: ActionCode)
    requires !a.ThrowCode? && !a.DealCode?
    ensures Encode(a) == CodeHead(a) + ZFill2(a.card) + "P" + NatStr(a.pos) + CodeRest(a)
  {
  }

  // ------------------------------------------------------ moves to codes

  /** The second marble's part of a two-marble SPLIT: "P" for a marble of
      the first one's colour, "T" for one of the team mate's colour, and
      nothing for any other; the rank is only asked for when it is
      written. */
  function SplitTail(b: Board, player: nat, first: Marble, second: Marble): (r: Option<Tail>)
    requires player < NumPlayers
  {
    if second.color == first.color then
      match MarblePosition(b, second)
      case None => None
      case Some(q) => Some(OwnTail(q))
    else if second.color == PartnerSeat(player) then
      match MarblePosition(b, second)
      case None => None
      case Some(q) => Some(MateTail(q))
    else Some(NoTail)
  }

  /** The second marble's part of a two-marble SWITCH: "T" for the team
      mate's colour, "A" for the colour of the seat after the player, "B"
      for the remaining one. */
  function SwitchTail(b: Board, player: nat, second: Marble): (r: Option<Tail>)
    requires player < NumPlayers
  {
    match MarblePosition(b, second)
    case None => None
    case Some(q) =>
      if second.color == PartnerSeat(player) then Some(MateTail(q))
      else if second.color == NextSeat(player, NumPlayers) then Some(NextTail(q))
      else Some(OtherTail(q))
  }

  /** `get_raw_action`, parsed, for a move on board b (the state before
      the move): None where the source raises, for a marble move without
      a card or a marble move, or with a marble off its colour's path. */
  function RawAction(b: Board, mv: Move): (r: Option<ActionCode>)
    requires mv.player < NumPlayers
    ensures r.Some? ==> CodeKind(r.value) == mv.kind
    ensures mv.kind == ThrowCards || mv.kind == DealMove ==> r.Some?
    ensures r.Some? && !r.value.ThrowCode? && !r.value.DealCode? ==>
              && |mv.cards| > 0 && |mv.marbleMoves| > 0
              && r.value.card == Rank(mv.cards[0].value)
              && MarblePosition(b, mv.marbleMoves[0].marble) == Some(r.value.pos)
  {
    if mv.kind == ThrowCards then Some(ThrowCode)
    else if mv.kind == DealMove then Some(DealCode)
    else if |mv.cards| == 0 || |mv.marbleMoves| == 0 then None
    else
      match MarblePosition(b, mv.marbleMoves[0].marble)
      case None => None
      case Some(p) => MarbleCode(b, mv, Rank(mv.cards[0].value), p)
  }

  /** The code of a marble move whose card value is v and whose first
      marble has rank p. */
  function MarbleCode(b: Board, mv: Move, v: nat, p: nat): (r: Option<ActionCode>)
    requires mv.player < NumPlayers && |mv.marbleMoves| > 0
    requires mv.kind != ThrowCards && mv.kind != DealMove
    ensures r.Some? ==> && CodeKind(r.value) == mv.kind
                        && !r.value.ThrowCode? && !r.value.DealCode?
                        && r.value.card == v && r.value.pos == p
  {
    var mms := mv.marbleMoves;
    match mv.kind
    case StartMove => Some(StartCode(v, p))
    case RunMove => Some(RunCode(v, p))
    case SplitMove =>
      if |mms| != 2 then Some(SplitCode(v, p, None))
      else
        (match SplitTail(b, mv.player, mms[0].marble, mms[1].marble)
         case None => None
         case Some(t) => Some(SplitCode(v, p, Some(SplitRest(|mms[0].steps|, t)))))
    case SwitchMove =>
      if |mms| != 2 then Some(SwitchCode(v, p, NoTail))
      else
        match SwitchTail(b, mv.player, mms[1].marble)
        case None => None
        case Some(t) => Some(SwitchCode(v, p, t))
  }

  /** The id string `get_raw_action` returns. */
  function ActionId(b: Board, mv: Move): (r: Option<string>)
    requires mv.player < NumPlayers
  {
    match RawAction(b, mv)
    case None => None
    case Some(a) => Some(Encode(a))
  }

  /** What the second marble's letter says: whose colour the second marble
      of a two-marble SPLIT or SWITCH has, and its rank. */
  lemma TailMeaning(b: Board, mv: Move)
    requires mv.player < NumPlayers && RawAction(b, mv).Some?
    requires mv.kind == SplitMove || mv.kind == SwitchMove
    ensures var a := RawAction(b, mv).value;
            var t := if a.SplitCode? then (if a.rest.Some? then a.rest.value.tail else NoTail) else a.tail;
            && (|mv.marbleMoves| != 2 ==> t == NoTail && (a.SplitCode? ==> a.rest.None?))
            && (|mv.marbleMoves| == 2 ==>
                  var m0, m1 := mv.marbleMoves[0].marble, mv.marbleMoves[1].marble;
                  && (a.SplitCode? ==> a.rest.Some? && a.rest.value.steps == |mv.marbleMoves[0].steps|)
                  && (t.OwnTail? <==> a.SplitCode? && m1.color == m0.color)
                  && (t.MateTail? <==> m1.color == PartnerSeat(mv.player) && (a.SwitchCode? || m1.color != m0.color))
                  && (t.NextTail? <==> a.SwitchCode? && m1.color == NextSeat(mv.player, NumPlayers) && m1.color != PartnerSeat(mv.player))
                  && (t.OtherTail? <==> a.SwitchCode? && m1.color != NextSeat(mv.player, NumPlayers) && m1.color != PartnerSeat(mv.player))
                  && (t.NoTail? <==> a.SplitCode? && m1.color != m0.color && m1.color != PartnerSeat(mv.player))
                  && (!t.NoTail? ==> MarblePosition(b, m1) == Some(t.pos)))
  {
  }

  /** Every id `get_raw_action` writes reads back as the move's code, when
      the first marble of a split has moved fewer than ten steps. */
  lemma ActionIdDecodes(b: Board, mv: Move)
    requires mv.player < NumPlayers && RawAction(b, mv).Some?
    requires mv.kind == SplitMove && |mv.marbleMoves| == 2 ==> |mv.marbleMoves[0].steps| < 10
    ensures Decode(ActionId(b, mv).value) == RawAction(b, mv)
  {
    var a := RawAction(b, mv).value;
    assert Valid(a) by {
      if a.SplitCode? || a.SwitchCode? {
        TailMeaning(b, mv);
      }
    }
    DecodeEncode(a);
  }
}
