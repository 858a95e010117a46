/** Board topology shared by Keezen (keezen/board.py `create_fields`) and
    Mens-erger-je-niet (mejn/board.py `create_fields`).

    Every player owns one block of consecutive field ids. Inside a block the
    index `id % BlockSize` fixes the field: 0..3 are the home spur (3 is the
    entrance, 0 the dead end), 4 is the junction in front of the start field,
    5 is the start field, the last four indices are the wait pen, and the
    rest is neutral track. Keezen blocks have 24 fields, mejn blocks 18.
    Colours are identified with the seat index of their owner: 0 Green
    (North), 1 Red (East), 2 Blue (South), 3 Yellow (West). */
module Layout {

  const NumPlayers: nat := 4
  const MarblesPerColor: nat := 4

  type Color = c: int | 0 <= c < 4

  /** Field identity: its index in `Board.fields`. */
  type Field = int

  /** `FieldColor.NEUTRAL`, the colour of every NORMAL field. */
  const Neutral: int := -1

  datatype Game = Keezen | Mejn

  datatype FieldType = Home | Start | Normal | Wait

  function BlockSize(g: Game): nat
  {
    match g
    case Keezen => 24
    case Mejn => 18
  }

  /** First wait index in a block (20 in Keezen, 14 in mejn). */
  function WaitBase(g: Game): nat
  {
    BlockSize(g) - 4
  }

  /** Last track index of a block (19 in Keezen, 13 in mejn); its successor
      is the junction of the next block. */
  function LastTrack(g: Game): nat
  {
    BlockSize(g) - 5
  }

  function NumFields(g: Game): nat
  {
    NumPlayers * BlockSize(g)
  }

  predicate IsField(g: Game, f: Field)
  {
    0 <= f < NumFields(g)
  }

  function Index(g: Game, f: Field): nat
  {
    f % BlockSize(g)
  }

  function Block(g: Game, f: Field): int
  {
    f / BlockSize(g)
  }

  function Kind(g: Game, f: Field): FieldType
  {
    var i := Index(g, f);
    if i < 4 then Home
    else if i == 5 then Start
    else if i >= WaitBase(g) then Wait
    else Normal
  }

  /** The owning colour of HOME, START and WAIT fields; NORMAL fields are
      neutral. */
  function ColorOf(g: Game, f: Field): int
  {
    if Kind(g, f) == Normal then Neutral else Block(g, f)
  }

  /** `field.next_fields`, in the order `create_fields` appends them. */
  function NextFields(g: Game, f: Field): seq<Field>
  {
    var i := Index(g, f);
    var n := NumFields(g);
    if 1 <= i <= 3 then [f - 1]
    else if i == 0 then []
    else if i == 4 then [f + 1, f - 1]
    else if i == LastTrack(g) then [if f + 9 > n - 1 then f + 9 - n else f + 9]
    else if i >= WaitBase(g) then []
    else [f + 1]
  }

  /** `field.previous_fields`. */
  function PrevFields(g: Game, f: Field): seq<Field>
  {
    var i := Index(g, f);
    var n := NumFields(g);
    if 1 <= i <= 3 then [f + 1]
    else if i == 0 then [f + 1]
    else if i == 4 then [if f - 9 < 0 then n + f - 9 else f - 9]
    else if i == LastTrack(g) then [f - 1]
    else if i >= WaitBase(g) then []
    else [f - 1]
  }

  /** `get_start_field_with_color`. */
  function StartField(g: Game, c: Color): (r: Field)
    ensures IsField(g, r) && Kind(g, r) == Start && ColorOf(g, r) == c
  {
    Decompose(g, c, 5);
    c * BlockSize(g) + 5
  }

  /** The i-th wait field of colour c, in `Board.waitFields` order. */
  function WaitField(g: Game, c: Color, i: nat): (r: Field)
    requires i < 4
    ensures IsField(g, r) && Kind(g, r) == Wait && ColorOf(g, r) == c
  {
    Decompose(g, c, WaitBase(g) + i);
    c * BlockSize(g) + WaitBase(g) + i
  }

  /** `get_last_home_field_with_color`: the home field without a successor. */
  function LastHomeField(g: Game, c: Color): (r: Field)
    ensures IsField(g, r) && Kind(g, r) == Home && ColorOf(g, r) == c
    ensures NextFields(g, r) == []
  {
    Decompose(g, c, 0);
    c * BlockSize(g)
  }

  /** `Board.homeFields`, `Board.startFields` and `Board.waitFields`, in
      the order `create_fields` appends them. */
  function HomeFields(g: Game): seq<Field>
  {
    seq(16, j requires 0 <= j < 16 => (j / 4) * BlockSize(g) + j % 4)
  }

  function StartFields(g: Game): seq<Field>
  {
    seq(4, c requires 0 <= c < 4 => c * BlockSize(g) + 5)
  }

  function WaitFields(g: Game): seq<Field>
  {
    seq(16, j requires 0 <= j < 16 => (j / 4) * BlockSize(g) + WaitBase(g) + j % 4)
  }

  /** Field ids decompose uniquely into block and index. */
  lemma Decompose(g: Game, c: int, i: int)
    requires 0 <= c < 4 && 0 <= i < BlockSize(g)
    ensures Index(g, c * BlockSize(g) + i) == i
    ensures Block(g, c * BlockSize(g) + i) == c
  {
    var bs := BlockSize(g);
    if c == 0 {
    } else if c == 1 {
      assert c * bs + i == bs + i;
    } else if c == 2 {
      assert c * bs + i == bs + bs + i;
    } else {
      assert c * bs + i == bs + bs + bs + i;
    }
  }

  /** Every field id is its block times the block size plus its index. */
  lemma FieldParts(g: Game, f: Field)
    requires IsField(g, f)
    ensures 0 <= Block(g, f) < 4 && 0 <= Index(g, f) < BlockSize(g)
    ensures f == Block(g, f) * BlockSize(g) + Index(g, f)
  {
  }

  /** A start field is the start field of its own colour, and no other. */
  lemma StartFieldUnique(g: Game, f: Field, c: Color)
    requires IsField(g, f)
    ensures Kind(g, f) == Start && ColorOf(g, f) == c <==> f == StartField(g, c)
  {
  }

  /** The home, start and wait lists enumerate exactly the fields of their
      type; with `FieldListsIncreasing`, each field appears once. */
  lemma HomeListExact(g: Game, f: Field)
    requires IsField(g, f)
    ensures f in HomeFields(g) <==> Kind(g, f) == Home
  {
    FieldParts(g, f);
    var b, i := Block(g, f), Index(g, f);
    if Kind(g, f) == Home {
      Quarter(b, i);
      assert HomeFields(g)[4 * b + i] == f;
    }
    if f in HomeFields(g) {
      var j :| 0 <= j < 16 && HomeFields(g)[j] == f;
      Decompose(g, j / 4, j % 4);
    }
  }

  lemma StartListExact(g: Game, f: Field)
    requires IsField(g, f)
    ensures f in StartFields(g) <==> Kind(g, f) == Start
  {
    FieldParts(g, f);
    var b, i := Block(g, f), Index(g, f);
    if Kind(g, f) == Start {
      assert StartFields(g)[b] == f;
    }
    if f in StartFields(g) {
      var j :| 0 <= j < 4 && StartFields(g)[j] == f;
      Decompose(g, j, 5);
    }
  }

  lemma WaitListExact(g: Game, f: Field)
    requires IsField(g, f)
    ensures f in WaitFields(g) <==> Kind(g, f) == Wait
  {
    FieldParts(g, f);
    var b, i := Block(g, f), Index(g, f);
    if Kind(g, f) == Wait {
      var k := i - WaitBase(g);
      Quarter(b, k);
      assert WaitFields(g)[4 * b + k] == f;
    }
    if f in WaitFields(g) {
      var j :| 0 <= j < 16 && WaitFields(g)[j] == f;
      Decompose(g, j / 4, WaitBase(g) + j % 4);
    }
  }

  /** Position 4b + k of a four-per-block list is block b, slot k. */
  lemma Quarter(b: int, k: int)
    requires 0 <= b < 4 && 0 <= k < 4
    ensures (4 * b + k) / 4 == b && (4 * b + k) % 4 == k
  {
  }

  lemma FieldListsIncreasing(g: Game)
    ensures forall j, k :: 0 <= j < k < 16 ==> HomeFields(g)[j] < HomeFields(g)[k]
    ensures forall j, k :: 0 <= j < k < 4 ==> StartFields(g)[j] < StartFields(g)[k]
    ensures forall j, k :: 0 <= j < k < 16 ==> WaitFields(g)[j] < WaitFields(g)[k]
  {
    var bs := BlockSize(g);
    forall j, k | 0 <= j < k < 16
      ensures HomeFields(g)[j] < HomeFields(g)[k]
      ensures WaitFields(g)[j] < WaitFields(g)[k]
    {
      if j / 4 == k / 4 {
        assert j % 4 < k % 4;
      } else {
        assert j / 4 < k / 4;
        assert (j / 4) * bs + bs <= (k / 4) * bs;
      }
    }
    forall j, k | 0 <= j < k < 4
      ensures StartFields(g)[j] < StartFields(g)[k]
    {
      assert j * bs + bs <= k * bs;
    }
  }

  /** Neighbours of a field are fields of the same board. */
  lemma NeighboursAreFields(g: Game, f: Field)
    requires IsField(g, f)
    ensures forall x :: x in NextFields(g, f) ==> IsField(g, x)
    ensures forall x :: x in PrevFields(g, f) ==> IsField(g, x)
  {
  }

  /** Wait fields are off the graph; the last home field is a dead end; the
      junction branches to the owner's start field first and to the owner's
      home entrance second; the last track field leads to the junction of
      the following block, wrapping round after the last block. */
  lemma AdjacencyShape(g: Game, f: Field)
    requires IsField(g, f)
    ensures Kind(g, f) == Wait ==> NextFields(g, f) == [] && PrevFields(g, f) == []
    ensures Index(g, f) == 0 ==> NextFields(g, f) == []
    ensures Index(g, f) == 4 ==>
              && NextFields(g, f) == [f + 1, f - 1]
              && Kind(g, f + 1) == Start && ColorOf(g, f + 1) == Block(g, f)
              && Kind(g, f - 1) == Home && ColorOf(g, f - 1) == Block(g, f)
    ensures Index(g, f) == LastTrack(g) ==>
              |NextFields(g, f)| == 1 &&
              var x := NextFields(g, f)[0];
              Index(g, x) == 4 && Block(g, x) == (Block(g, f) + 1) % NumPlayers
  {
    FieldParts(g, f);
    var b, i := Block(g, f), Index(g, f);
    if i == 4 {
      Decompose(g, b, 5);
      Decompose(g, b, 3);
    } else if i == LastTrack(g) {
      var x := NextFields(g, f)[0];
      if b == 3 {
        assert x == 4;
        Decompose(g, 0, 4);
      } else {
        assert x == (b + 1) * BlockSize(g) + 4;
        Decompose(g, b + 1, 4);
      }
    }
  }

  /** The graph is consistent: x follows f exactly when f precedes x. */
  lemma AdjacencySymmetric(g: Game, f: Field, x: Field)
    requires IsField(g, f) && IsField(g, x)
    ensures x in NextFields(g, f) <==> f in PrevFields(g, x)
  {
    if x in NextFields(g, f) {
      NextHasPrev(g, f, x);
    }
    if f in PrevFields(g, x) {
      PrevHasNext(g, f, x);
    }
  }

  lemma NextHasPrev(g: Game, f: Field, x: Field)
    requires IsField(g, f) && x in NextFields(g, f)
    ensures f in PrevFields(g, x)
  {
    FieldParts(g, f);
    var b, i := Block(g, f), Index(g, f);
    if i == LastTrack(g) {
      if b == 3 {
        assert x == 4;
        assert f == 4 + NumFields(g) - 9;
      } else {
        assert x == (b + 1) * BlockSize(g) + 4;
        Decompose(g, b + 1, 4);
      }
    } else if i == 4 && x == f - 1 {
      Decompose(g, b, 3);
    } else if 1 <= i <= 3 {
      Decompose(g, b, i - 1);
    } else {
      Decompose(g, b, i + 1);
    }
  }

  lemma PrevHasNext(g: Game, f: Field, x: Field)
    requires IsField(g, x) && f in PrevFields(g, x)
    ensures x in NextFields(g, f)
  {
    FieldParts(g, x);
    var b, j := Block(g, x), Index(g, x);
    if j == 4 {
      if b == 0 {
        assert f == NumFields(g) - 5;
        Decompose(g, 3, LastTrack(g));
      } else {
        assert f == (b - 1) * BlockSize(g) + LastTrack(g);
        Decompose(g, b - 1, LastTrack(g));
      }
    } else if j <= 3 {
      Decompose(g, b, j + 1);
    } else {
      Decompose(g, b, j - 1);
    }
  }

  /** The facts test_board.py checks for the 72-field mejn board. */
  lemma MejnBoardFacts()
    ensures NumFields(Mejn) == 72
    ensures |HomeFields(Mejn)| == 16 && |StartFields(Mejn)| == 4 && |WaitFields(Mejn)| == 16
    ensures forall f :: f in [4, 22, 40, 58] ==> |NextFields(Mejn, f)| == 2
    ensures forall f :: f in [0, 18, 36, 54] ==> NextFields(Mejn, f) == []
    ensures forall f :: f in StartFields(Mejn) ==>
              |NextFields(Mejn, f)| == 1 && |PrevFields(Mejn, f)| == 1
    ensures StartField(Mejn, 0) == 5 && StartField(Mejn, 1) == 23
    ensures StartField(Mejn, 2) == 41 && StartField(Mejn, 3) == 59
    ensures LastHomeField(Mejn, 2) == 36 && LastHomeField(Mejn, 3) == 54
  {
  }
}
