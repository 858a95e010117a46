/** The hop rules of both games (`Board.is_next_field_allowed` in
    keezen/board.py and mejn/board.py) and the path walk they share
    (`Board.get_path_for_color`): from the current field, repeatedly take
    the first candidate neighbour the rule allows. The source loops |n|
    times, but once no candidate is allowed the current field stops
    changing, so every later iteration finds nothing as well: the walk
    simply stops there. */
module Paths {
  import opened Common
  import opened Layout
  import opened BoardState

  /** `Board.startFieldPassingForwards` and `startFieldPassingBackwards`:
      whether a marble may run over its own start field. */
  datatype PassFlags = PassFlags(forwards: bool, backwards: bool)

  /** The class constants of keezen/board.py. */
  const DefaultFlags := PassFlags(false, true)

  /** Who is walking, and under which game's rule. */
  datatype Walker =
    | KeezenWalker(flags: PassFlags, color: Color, board: Board, backwards: bool)
    | MejnWalker(color: Color, board: Board)

  function GameOf(w: Walker): Game
  {
    if w.KeezenWalker? then Keezen else Mejn
  }

  function Backwards(w: Walker): bool
  {
    w.KeezenWalker? && w.backwards
  }

  /** The candidates tried from a field: previous fields when running
      backwards, next fields otherwise. */
  function Candidates(w: Walker, cur: Field): seq<Field>
  {
    if Backwards(w) then PrevFields(GameOf(w), cur) else NextFields(GameOf(w), cur)
  }

  /** Keezen `is_next_field_allowed`, its conditions in the order the source checks them. */
  predicate KeezenAllowed(flags: PassFlags, c: Color, cur: Field, nxt: Field, b: Board, backwards: bool)
  {
    var g := Keezen;
    if backwards && nxt !in PrevFields(g, cur) then false
    else if !backwards && nxt !in NextFields(g, cur) then false
    else if Kind(g, nxt) == Home && ColorOf(g, nxt) != c then false
    else if backwards && Kind(g, cur) == Home then false
    else if backwards && Kind(g, nxt) == Start && ColorOf(g, nxt) == c then flags.backwards
    else if !backwards && Kind(g, nxt) == Start && ColorOf(g, nxt) == c then flags.forwards
    else if Kind(g, nxt) == Start || Kind(g, nxt) == Home then
      !(nxt in b && b[nxt].color == ColorOf(g, nxt))
    else true
  }

  /** mejn `is_next_field_allowed` (forward only). The start field's
      occupancy is not checked, and a home field is only blocked by a marble
      of the walker's own colour. */
  predicate MejnAllowed(c: Color, cur: Field, nxt: Field, b: Board)
  {
    var g := Mejn;
    if nxt !in NextFields(g, cur) then false
    else if Kind(g, nxt) == Home then
      if ColorOf(g, nxt) != c then false
      else !(b != map[] && nxt in b && b[nxt].color == c)
    else if Kind(g, nxt) == Start && ColorOf(g, nxt) == c then false
    else true
  }

  predicate Allowed(w: Walker, cur: Field, nxt: Field)
  {
    match w
    case KeezenWalker(flags, c, b, back) => KeezenAllowed(flags, c, cur, nxt, b, back)
    case MejnWalker(c, b) => MejnAllowed(c, cur, nxt, b)
  }

  /** The inner `for next_field in next_fields` loop: the first candidate
      the rule allows. */
  function FirstAllowed(w: Walker, cur: Field, cands: seq<Field>): (r: Option<Field>)
    ensures r.Some? ==> r.value in cands && Allowed(w, cur, r.value)
    ensures r.None? <==> forall x :: x in cands ==> !Allowed(w, cur, x)
    ensures |cands| > 0 && Allowed(w, cur, cands[0]) ==> r == Some(cands[0])
  {
    if |cands| == 0 then None
    else if Allowed(w, cur, cands[0]) then Some(cands[0])
    else
      assert forall x :: x in cands <==> x == cands[0] || x in cands[1..];
      FirstAllowed(w, cur, cands[1..])
  }

  /** One iteration of the outer loop: the hop taken from cur, if any. */
  function Hop(w: Walker, cur: Field): (r: Option<Field>)
    ensures r.Some? ==> r.value in Candidates(w, cur) && Allowed(w, cur, r.value)
    ensures r.None? <==> forall x :: x in Candidates(w, cur) ==> !Allowed(w, cur, x)
  {
    FirstAllowed(w, cur, Candidates(w, cur))
  }

  /** The field a walk stands on after its i-th hop (i = 0 is the start). */
  function At(cur: Field, p: seq<Field>, i: nat): Field
    requires i <= |p|
  {
    if i == 0 then cur else p[i - 1]
  }

  /** A path is a chain of hops, each the one the rule picks. */
  ghost predicate IsChain(hop: Field -> Option<Field>, cur: Field, p: seq<Field>)
  {
    forall i {:trigger At(cur, p, i)} :: 0 <= i < |p| ==> hop(At(cur, p, i)) == Some(p[i])
  }

  /** The walk of at most k hops, for any hop function. */
  function Walk(hop: Field -> Option<Field>, cur: Field, k: nat): (r: seq<Field>)
    ensures |r| <= k
    decreases k
  {
    if k == 0 then []
    else
      match hop(cur)
      case None => []
      case Some(n) => [n] + Walk(hop, n, k - 1)
  }

  /** One unfolding of the walk. */
  lemma WalkStep(hop: Field -> Option<Field>, cur: Field, k: nat)
    requires k > 0
    ensures hop(cur).None? ==> Walk(hop, cur, k) == []
    ensures hop(cur).Some? ==> Walk(hop, cur, k) == [hop(cur).value] + Walk(hop, hop(cur).value, k - 1)
  {
  }

  /** Every field of a walk is the hop taken from the one before it, and a
      walk shorter than its budget ends where no hop is possible. */
  lemma {:induction false} WalkIsChain(hop: Field -> Option<Field>, cur: Field, k: nat)
    ensures IsChain(hop, cur, Walk(hop, cur, k))
    ensures |Walk(hop, cur, k)| < k ==> hop(At(cur, Walk(hop, cur, k), |Walk(hop, cur, k)|)).None?
    decreases k
  {
    if k > 0 {
      match hop(cur)
      case None =>
      case Some(n) =>
        var rest := Walk(hop, n, k - 1);
        WalkIsChain(hop, n, k - 1);
        ShiftChain(hop, cur, n, rest);
    }
  }

  lemma ShiftChain(hop: Field -> Option<Field>, cur: Field, n: Field, rest: seq<Field>)
    requires hop(cur) == Some(n) && IsChain(hop, n, rest)
    ensures IsChain(hop, cur, [n] + rest)
    ensures At(cur, [n] + rest, |rest| + 1) == At(n, rest, |rest|)
  {
    var r := [n] + rest;
    forall i | 0 <= i < |r|
      ensures hop(At(cur, r, i)) == Some(r[i])
    {
      if i > 0 {
        assert At(cur, r, i) == At(n, rest, i - 1);
      }
    }
  }

  /** Conversely, a chain is the walk of its own length, and a chain
      that ends where no hop is possible is the walk of any longer budget:
      the walk is the one maximal chain. */
  lemma {:induction false} ChainIsWalk(hop: Field -> Option<Field>, cur: Field, p: seq<Field>, k: nat)
    requires IsChain(hop, cur, p)
    requires |p| <= k
    requires |p| < k ==> hop(At(cur, p, |p|)).None?
    ensures Walk(hop, cur, k) == p
    decreases |p|
  {
    assert |p| > 0 ==> hop(At(cur, p, 0)) == Some(p[0]);
    if |p| > 0 {
      var rest := p[1..];
      assert IsChain(hop, p[0], rest) by {
        forall i | 0 <= i < |rest|
          ensures hop(At(p[0], rest, i)) == Some(rest[i])
        {
          assert At(p[0], rest, i) == At(cur, p, i + 1);
          assert hop(At(cur, p, i + 1)) == Some(p[i + 1]);
        }
      }
      assert At(p[0], rest, |rest|) == At(cur, p, |p|);
      ChainIsWalk(hop, p[0], rest, k - 1);
      assert p == [p[0]] + rest;
    }
  }

  /** A shorter walk is a prefix of a longer one from the same field, and
      a walk that stopped early is the same whatever the hop budget. */
  lemma {:induction false} WalkPrefix(hop: Field -> Option<Field>, cur: Field, j: nat, k: nat)
    requires j <= k
    ensures Walk(hop, cur, j) <= Walk(hop, cur, k)
    ensures |Walk(hop, cur, k)| < j ==> Walk(hop, cur, j) == Walk(hop, cur, k)
    decreases j
  {
    if j > 0 {
      match hop(cur)
      case None =>
      case Some(n) =>
        WalkPrefix(hop, n, j - 1, k - 1);
    }
  }

  /** Walking j hops and then k more from where the first walk ended is
      walking j + k hops, provided the first walk was not cut short. */
  lemma {:induction false} WalkConcat(hop: Field -> Option<Field>, cur: Field, j: nat, k: nat)
    requires |Walk(hop, cur, j)| == j
    ensures Walk(hop, cur, j + k) == Walk(hop, cur, j) + Walk(hop, At(cur, Walk(hop, cur, j), j), k)
    decreases j
  {
    if j > 0 {
      var n := hop(cur).value;
      var p := Walk(hop, n, j - 1);
      WalkConcat(hop, n, j - 1, k);
      assert At(cur, [n] + p, j) == At(n, p, j - 1);
    }
  }

  /** The hop function of a walker. */
  function HopOf(w: Walker): Field -> Option<Field>
  {
    f => Hop(w, f)
  }

  /** Hop j of a walker's chain, stated on `Hop` itself. */
  lemma HopLink(w: Walker, cur: Field, r: seq<Field>, j: nat)
    requires IsChain(HopOf(w), cur, r)
    requires j < |r|
    ensures Hop(w, At(cur, r, j)) == Some(r[j])
    ensures j > 0 ==> Hop(w, r[j - 1]) == Some(r[j])
  {
    assert HopOf(w)(At(cur, r, j)) == Some(r[j]);
  }

  /** A chain of hops of the full budget is the walk itself. */
  lemma FullChainIsWalk(w: Walker, cur: Field, k: nat)
    ensures forall p :: IsChain(HopOf(w), cur, p) && |p| == k ==> Walk(HopOf(w), cur, k) == p
  {
    forall p | IsChain(HopOf(w), cur, p) && |p| == k
      ensures Walk(HopOf(w), cur, k) == p
    {
      ChainIsWalk(HopOf(w), cur, p, k);
    }
  }

  /** `get_path_for_color`: the walk when it has all |n| hops or when a
      shorter path is acceptable, and `[]` otherwise. A path of all |n|
      hops, when one exists, is the one returned. */
  function PathFrom(w: Walker, cur: Field, n: int, short: bool): (r: seq<Field>)
    ensures |r| <= Abs(n)
    ensures IsChain(HopOf(w), cur, r)
    ensures !short ==> r == [] || |r| == Abs(n)
    ensures short || |r| == Abs(n) ==> r == Walk(HopOf(w), cur, Abs(n))
    ensures forall p :: IsChain(HopOf(w), cur, p) && |p| == Abs(n) ==> r == p
  {
    var p := Walk(HopOf(w), cur, Abs(n));
    WalkIsChain(HopOf(w), cur, Abs(n));
    FullChainIsWalk(w, cur, Abs(n));
    if short || |p| == Abs(n) then p else []
  }
}
