/** Marbles and the board state shared by both games: the `Marble` class,
    `BoardState` (a dict from field to marble) and the board helpers that
    read it (keezen/board.py and mejn/board.py, which are identical here
    apart from the finishing count). */
module BoardState {
  import opened Common
  import opened Layout

  type MarbleIdx = i: int | 0 <= i < 4

  /** A marble: its colour and `raw_id`, its index among the four marbles of
      that colour. Marble identity is the pair. */
  datatype Marble = Marble(color: Color, idx: MarbleIdx)

  /** `fields_with_marbles`: the occupied fields and who stands on them. */
  type Board = map<Field, Marble>

  /** `board.marbles`: colour by colour, index by index. */
  function AllMarbles(): (r: seq<Marble>)
    ensures |r| == 16
    ensures forall m: Marble :: m in r
  {
    var r := MarblesWithColor(0) + MarblesWithColor(1) + MarblesWithColor(2) + MarblesWithColor(3);
    assert forall m: Marble :: m in MarblesWithColor(m.color);
    r
  }

  /** `get_marbles_with_color`. */
  function MarblesWithColor(c: Color): (r: seq<Marble>)
    ensures |r| == 4
    ensures forall i :: 0 <= i < 4 ==> r[i] == Marble(c, i)
    ensures forall m: Marble :: m in r <==> m.color == c
  {
    [Marble(c, 0), Marble(c, 1), Marble(c, 2), Marble(c, 3)]
  }

  /** `get_marble_for_field_opt`. */
  function MarbleAt(b: Board, f: Field): (r: Option<Marble>)
    ensures r.Some? <==> f in b
    ensures r.Some? ==> r.value == b[f]
  {
    if f in b then Some(b[f]) else None
  }

  /** `get_field_for_marble`: the source scans the dict for the marble; on
      a board where every marble stands on at most one field (`Injective`)
      that field is unique, and this picks the lowest such id. */
  function FieldOf(b: Board, m: Marble): (r: Option<Field>)
    ensures r.Some? ==> r.value in b && b[r.value] == m
    ensures r.None? <==> forall f :: f in b ==> b[f] != m
  {
    var fs := set f | f in b && b[f] == m;
    if fs == {} then
      assert forall f :: f in b ==> b[f] != m by {
        forall f | f in b ensures b[f] != m {
          assert f !in fs;
        }
      }
      None
    else Some(Min(fs))
  }

  ghost predicate Injective(b: Board)
  {
    forall f, f' :: f in b && f' in b && b[f] == b[f'] ==> f == f'
  }

  lemma FieldOfOnInjective(b: Board, f: Field)
    requires Injective(b) && f in b
    ensures FieldOf(b, b[f]) == Some(f)
  {
    var fs := set x | x in b && b[x] == b[f];
    assert f in fs;
    assert forall x :: x in fs ==> x == f;
    assert fs == {f};
  }

  /** The state invariant of a game in progress: only board fields are
      occupied, no marble stands on two fields, all sixteen marbles are on
      the board, and a wait field only ever holds a marble of its colour. */
  ghost predicate WellFormed(g: Game, b: Board)
  {
    && (forall f :: f in b ==> IsField(g, f))
    && Injective(b)
    && (forall m: Marble :: FieldOf(b, m).Some?)
    && (forall f :: f in b && Kind(g, f) == Wait ==> b[f].color == ColorOf(g, f))
  }

  /** `put_marble_on_field`: moves m to f and returns the marble that stood
      on f. The evicted marble is not relocated: callers send it to a wait
      field themselves. */
  function Put(b: Board, m: Marble, f: Field): (r: (Board, Option<Marble>))
    ensures f in r.0 && r.0[f] == m
    ensures FieldOf(b, m) == Some(f) ==> r == (b, None)
    ensures FieldOf(b, m) != Some(f) ==> r.1 == MarbleAt(b, f)
    ensures FieldOf(b, m).Some? && FieldOf(b, m) != Some(f) ==> FieldOf(b, m).value !in r.0
    ensures forall k :: k != f && Some(k) != FieldOf(b, m) ==>
              (k in r.0 <==> k in b) && (k in b ==> r.0[k] == b[k])
    ensures Injective(b) ==> Injective(r.0) && FieldOf(r.0, m) == Some(f)
    ensures Injective(b) && r.1.Some? ==> r.1.value != m && FieldOf(r.0, r.1.value).None?
  {
    var cur := FieldOf(b, m);
    if cur == Some(f) then (b, None)
    else
      var prev := MarbleAt(b, f);
      var b1 := if cur.Some? then b - {cur.value} else b;
      var b2 := b1[f := m];
      PutFacts(b, m, f, b2);
      (b2, prev)
  }

  lemma PutFacts(b: Board, m: Marble, f: Field, b2: Board)
    requires FieldOf(b, m) != Some(f)
    requires b2 == (if FieldOf(b, m).Some? then b - {FieldOf(b, m).value} else b)[f := m]
    ensures Injective(b) ==> Injective(b2) && FieldOf(b2, m) == Some(f)
    ensures Injective(b) && f in b ==> b[f] != m && FieldOf(b2, b[f]).None?
  {
    if Injective(b) {
      forall x, y | x in b2 && y in b2 && b2[x] == b2[y]
        ensures x == y
      {
      }
      FieldOfOnInjective(b2, f);
      if f in b {
        if b[f] == m {
          FieldOfOnInjective(b, f);
        }
        forall k | k in b2
          ensures b2[k] != b[f]
        {
          if k != f {
            assert k in b && b2[k] == b[k];
          }
        }
      }
    }
  }

  /** Whether the marble stands on a field of the given type. */
  predicate OnKind(g: Game, b: Board, m: Marble, k: FieldType)
  {
    FieldOf(b, m).Some? && Kind(g, FieldOf(b, m).value) == k
  }

  /** The marbles of ms standing on a field of type k, in the order of ms
      (`get_marbles_at_home` and `get_marbles_at_wait`). */
  function MarblesOnKind(g: Game, b: Board, ms: seq<Marble>, k: FieldType): (r: seq<Marble>)
    ensures |r| <= |ms|
    ensures forall x :: x in r <==> x in ms && OnKind(g, b, x, k)
    ensures |r| == |ms| <==> forall x :: x in ms ==> OnKind(g, b, x, k)
  {
    if |ms| == 0 then []
    else
      var rest := MarblesOnKind(g, b, ms[1..], k);
      assert forall x :: x in ms <==> x == ms[0] || x in ms[1..];
      if OnKind(g, b, ms[0], k) then [ms[0]] + rest else rest
  }

  /** The filter keeps the order of ms: its head is at or before every
      element of ms that qualifies. */
  lemma {:induction false} MarblesOnKindHead(g: Game, b: Board, ms: seq<Marble>, k: FieldType, i: nat)
    requires i < |ms| && OnKind(g, b, ms[i], k)
    ensures MarblesOnKind(g, b, ms, k) != []
    ensures MarblesOnKind(g, b, ms, k)[0] in ms[..i + 1]
  {
    if !OnKind(g, b, ms[0], k) {
      assert ms[i] == ms[1..][i - 1];
      MarblesOnKindHead(g, b, ms[1..], k, i - 1);
      assert ms[1..][..i] == ms[1..i + 1];
    }
  }

  /** On a well-formed board every marble stands on a field, so whether it
      stands on a field of type k is read off that field alone: the quiet
      answer for a marble on no field never arises there. */
  lemma OnKindOnWellFormed(g: Game, b: Board, m: Marble, k: FieldType)
    requires WellFormed(g, b)
    ensures FieldOf(b, m).Some?
    ensures OnKind(g, b, m, k) <==> Kind(g, FieldOf(b, m).value) == k
  {
  }

  function MarblesAtHome(g: Game, c: Color, b: Board): seq<Marble>
  {
    MarblesOnKind(g, b, MarblesWithColor(c), Home)
  }

  function MarblesAtWait(g: Game, c: Color, b: Board): seq<Marble>
  {
    MarblesOnKind(g, b, MarblesWithColor(c), Wait)
  }

  /** `get_waiting_marble`: the lowest-index marble of colour c in its wait
      pen, if any. */
  function WaitingMarble(g: Game, c: Color, b: Board): (r: Option<Marble>)
    ensures r.Some? ==> r.value.color == c && OnKind(g, b, r.value, Wait)
    ensures r.Some? ==> forall i :: 0 <= i < r.value.idx ==> !OnKind(g, b, Marble(c, i), Wait)
    ensures r.None? <==> forall i :: 0 <= i < 4 ==> !OnKind(g, b, Marble(c, i), Wait)
  {
    var w := MarblesAtWait(g, c, b);
    if |w| > 0 then
      WaitHeadIsLowest(g, c, b);
      Some(w[0])
    else None
  }

  lemma WaitHeadIsLowest(g: Game, c: Color, b: Board)
    requires |MarblesAtWait(g, c, b)| > 0
    ensures forall i :: 0 <= i < MarblesAtWait(g, c, b)[0].idx ==> !OnKind(g, b, Marble(c, i), Wait)
  {
    forall i | 0 <= i < MarblesAtWait(g, c, b)[0].idx
      ensures !OnKind(g, b, Marble(c, i), Wait)
    {
      if OnKind(g, b, Marble(c, i), Wait) {
        MarblesOnKindHead(g, b, MarblesWithColor(c), Wait, i);
      }
    }
  }

  /** `is_color_finished`: the number of colour c's marbles at home equals
      the variant's finishing count. */
  function IsColorFinished(g: Game, c: Color, b: Board, finishCount: nat): bool
  {
    |MarblesAtHome(g, c, b)| == finishCount
  }

  /** With the full count of four (mejn always, Keez by default) a colour
      is finished exactly when all four of its marbles are home. */
  lemma FinishedIffAllHome(g: Game, c: Color, b: Board)
    ensures IsColorFinished(g, c, b, 4) <==> forall i :: 0 <= i < 4 ==> OnKind(g, b, Marble(c, i), Home)
  {
    var ms := MarblesWithColor(c);
    assert forall i :: 0 <= i < 4 ==> ms[i] == Marble(c, i);
  }

  /** `get_empty_wait_field_with_color`: the first free wait field of
      colour c, or None when the pen is full. */
  function EmptyWaitField(g: Game, c: Color, b: Board): (r: Option<Field>)
    ensures r.Some? ==> IsField(g, r.value) && Kind(g, r.value) == Wait && ColorOf(g, r.value) == c
    ensures r.Some? ==> r.value !in b
    ensures r.Some? ==> forall i :: 0 <= i < 4 && WaitField(g, c, i) < r.value ==> WaitField(g, c, i) in b
    ensures r.None? <==> forall i :: 0 <= i < 4 ==> WaitField(g, c, i) in b
  {
    if WaitField(g, c, 0) !in b then Some(WaitField(g, c, 0))
    else if WaitField(g, c, 1) !in b then Some(WaitField(g, c, 1))
    else if WaitField(g, c, 2) !in b then Some(WaitField(g, c, 2))
    else if WaitField(g, c, 3) !in b then Some(WaitField(g, c, 3))
    else None
  }

  /** A wait field of colour c is one of its four `WaitField`s. */
  lemma WaitFieldOfColor(g: Game, f: Field)
    requires IsField(g, f) && Kind(g, f) == Wait
    ensures 0 <= ColorOf(g, f) < 4
    ensures 0 <= Index(g, f) - WaitBase(g) < 4
    ensures f == WaitField(g, ColorOf(g, f), Index(g, f) - WaitBase(g))
  {
  }

  /** On a well-formed board the four wait fields of colour c, when all
      occupied, hold the four marbles of c. */
  lemma FullPenHoldsAll(g: Game, b: Board, c: Color, m: Marble)
    requires WellFormed(g, b)
    requires forall i :: 0 <= i < 4 ==> WaitField(g, c, i) in b
    requires m.color == c
    ensures OnKind(g, b, m, Wait)
  {
    var ks := seq(4, i requires 0 <= i < 4 => b[WaitField(g, c, i)].idx);
    forall i, j | 0 <= i < j < 4
      ensures ks[i] != ks[j]
    {
      assert WaitField(g, c, i) != WaitField(g, c, j);
    }
    Cover4(ks, m.idx);
    var i :| 0 <= i < 4 && ks[i] == m.idx;
    assert b[WaitField(g, c, i)].color == c;
    FieldOfOnInjective(b, WaitField(g, c, i));
  }

  /** Four distinct values in 0..3 take every value in 0..3. */
  lemma Cover4(ks: seq<int>, v: int)
    requires |ks| == 4 && forall i :: 0 <= i < 4 ==> 0 <= ks[i] < 4
    requires forall i, j :: 0 <= i < j < 4 ==> ks[i] != ks[j]
    requires 0 <= v < 4
    ensures v in ks
  {
    var a, b, c, d := ks[0], ks[1], ks[2], ks[3];
    assert a != b && a != c && a != d && b != c && b != d && c != d;
    if v != a && v != b && v != c {
      assert v == d;
    }
  }

  /** Each colour has exactly as many wait fields as marbles: on a
      well-formed board, a colour with a marble outside its pen always has
      a free wait field, so a hit marble can always be sent back. */
  lemma FreeWaitFieldExists(g: Game, b: Board, m: Marble)
    requires WellFormed(g, b)
    requires !OnKind(g, b, m, Wait)
    ensures EmptyWaitField(g, m.color, b).Some?
  {
    if EmptyWaitField(g, m.color, b).None? {
      FullPenHoldsAll(g, b, m.color, m);
    }
  }

  /** Conversely, a full pen: when all of colour c's marbles wait, no wait
      field of c is free. */
  lemma FullPenHasNoFreeField(g: Game, b: Board, c: Color)
    requires WellFormed(g, b)
    requires forall i :: 0 <= i < 4 ==> OnKind(g, b, Marble(c, i), Wait)
    ensures EmptyWaitField(g, c, b).None?
  {
    var ks := seq(4, i requires 0 <= i < 4 => Index(g, FieldOf(b, Marble(c, i)).value) - WaitBase(g));
    forall i | 0 <= i < 4
      ensures 0 <= ks[i] < 4 && FieldOf(b, Marble(c, i)).value == WaitField(g, c, ks[i])
    {
      WaitFieldOfColor(g, FieldOf(b, Marble(c, i)).value);
    }
    forall i, j | 0 <= i < j < 4
      ensures ks[i] != ks[j]
    {
      assert FieldOf(b, Marble(c, i)) != FieldOf(b, Marble(c, j));
    }
    forall i | 0 <= i < 4
      ensures WaitField(g, c, i) in b
    {
      Cover4(ks, i);
      var j :| 0 <= j < 4 && ks[j] == i;
    }
  }

  /** Moving a marble that is outside its pen onto a free wait field of its
      colour keeps the board well formed and moves nothing else. */
  lemma PutOnFreeWaitField(g: Game, b: Board, m: Marble, w: Field)
    requires WellFormed(g, b)
    requires IsField(g, w) && Kind(g, w) == Wait && ColorOf(g, w) == m.color && w !in b
    ensures var b' := Put(b, m, w).0;
            && WellFormed(g, b')
            && FieldOf(b', m) == Some(w)
            && forall x :: x != m ==> FieldOf(b', x) == FieldOf(b, x)
  {
    var b' := Put(b, m, w).0;
    var cur := FieldOf(b, m).value;
    forall x: Marble
      ensures FieldOf(b', x).Some?
    {
      if x != m {
        var k := FieldOf(b, x).value;
        assert k != cur && k != w;
        assert b'[k] == x;
      }
    }
    forall x | x != m
      ensures FieldOf(b', x) == FieldOf(b, x)
    {
      var k := FieldOf(b, x).value;
      assert k != cur && k != w;
      FieldOfOnInjective(b', k);
    }
  }

  /** `BoardState.get_initial_board_state`: marble i of each colour on the
      i-th wait field of that colour. */
  function InitialBoard(g: Game): (r: Board)
    ensures WellFormed(g, r)
    ensures forall m: Marble :: FieldOf(r, m) == Some(WaitField(g, m.color, m.idx))
  {
    var r := map f | 0 <= f < NumFields(g) && Kind(g, f) == Wait :: WaitOccupant(g, f);
    InitialBoardFacts(g, r);
    r
  }

  lemma InitialBoardFacts(g: Game, r: Board)
    requires r == map f | 0 <= f < NumFields(g) && Kind(g, f) == Wait :: WaitOccupant(g, f)
    ensures WellFormed(g, r)
    ensures forall m: Marble :: FieldOf(r, m) == Some(WaitField(g, m.color, m.idx))
  {
    forall f, f' | f in r && f' in r && r[f] == r[f']
      ensures f == f'
    {
    }
    forall m: Marble
      ensures WaitField(g, m.color, m.idx) in r && r[WaitField(g, m.color, m.idx)] == m
    {
      WaitOccupantOf(g, m);
    }
    forall m: Marble
      ensures FieldOf(r, m) == Some(WaitField(g, m.color, m.idx))
    {
      FieldOfOnInjective(r, WaitField(g, m.color, m.idx));
    }
  }

  lemma WaitOccupantOf(g: Game, m: Marble)
    ensures WaitOccupant(g, WaitField(g, m.color, m.idx)) == m
  {
    Decompose(g, m.color, WaitBase(g) + m.idx);
  }

  /** The marble the initial board puts on wait field f. */
  function WaitOccupant(g: Game, f: Field): (m: Marble)
    requires IsField(g, f) && Kind(g, f) == Wait
    ensures m.color == ColorOf(g, f) && f == WaitField(g, m.color, m.idx)
  {
    WaitFieldOfColor(g, f);
    Marble(Block(g, f), Index(g, f) - WaitBase(g))
  }

  /** `BoardState.reset`: every marble not in a wait pen goes to the first
      free wait field of its colour. The source would store a marble under
      the key None if no field were free; that cannot happen on a
      well-formed board (`FreeWaitFieldExists`), and the model leaves the
      marble where it is instead. */
  function Reset(g: Game, b: Board): (r: Board)
    ensures WellFormed(g, b) ==> WellFormed(g, r)
    ensures WellFormed(g, b) ==> forall m: Marble :: OnKind(g, r, m, Wait)
    ensures WellFormed(g, b) ==> forall m: Marble :: OnKind(g, b, m, Wait) ==> FieldOf(r, m) == FieldOf(b, m)
  {
    ResetMarbles(g, b, AllMarbles())
  }

  function ResetMarbles(g: Game, b: Board, ms: seq<Marble>): (r: Board)
    ensures WellFormed(g, b) ==> WellFormed(g, r)
    ensures WellFormed(g, b) ==> forall m: Marble :: m in ms || OnKind(g, b, m, Wait) ==> OnKind(g, r, m, Wait)
    ensures WellFormed(g, b) ==> forall m: Marble :: OnKind(g, b, m, Wait) ==> FieldOf(r, m) == FieldOf(b, m)
    ensures WellFormed(g, b) && |ms| > 0 && !OnKind(g, b, ms[0], Wait) ==>
              FieldOf(r, ms[0]) == EmptyWaitField(g, ms[0].color, b)
    decreases |ms|
  {
    if |ms| == 0 then b
    else
      var m := ms[0];
      var f := FieldOf(b, m);
      var b' := if f.Some? && Kind(g, f.value) == Wait then b
                else match EmptyWaitField(g, m.color, b)
                  case None => b
                  case Some(w) => Put(b, m, w).0;
      ResetStep(g, b, m, b');
      var r := ResetMarbles(g, b', ms[1..]);
      assert forall x :: x in ms ==> x == m || x in ms[1..];
      r
  }

  lemma ResetStep(g: Game, b: Board, m: Marble, b': Board)
    requires b' == if FieldOf(b, m).Some? && Kind(g, FieldOf(b, m).value) == Wait then b
                   else match EmptyWaitField(g, m.color, b)
                     case None => b
                     case Some(w) => Put(b, m, w).0
    ensures WellFormed(g, b) ==> WellFormed(g, b') && OnKind(g, b', m, Wait)
    ensures WellFormed(g, b) ==> forall x: Marble :: OnKind(g, b, x, Wait) ==> FieldOf(b', x) == FieldOf(b, x)
    ensures WellFormed(g, b) && !OnKind(g, b, m, Wait) ==> FieldOf(b', m) == EmptyWaitField(g, m.color, b)
  {
    if WellFormed(g, b) && !OnKind(g, b, m, Wait) {
      FreeWaitFieldExists(g, b, m);
      var w := EmptyWaitField(g, m.color, b).value;
      PutOnFreeWaitField(g, b, m, w);
    }
  }
}
