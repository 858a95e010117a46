/** Small shared vocabulary: optional values, error results, the few
    sequence and number helpers the game modules need, and the game
    history both games keep for `step_back`. */
module Common {

  /** Stands for a Python value that may be `None`. */
  datatype Option<+T> = None | Some(value: T)

  /** Stands for a Python call that may raise: `Err` carries the reason. */
  datatype Result<+T> = Ok(value: T) | Err(reason: string)

  function Abs(n: int): (r: nat)
    ensures r == n || r == -n
  {
    if n < 0 then -n else n
  }

  function Last<T>(s: seq<T>): T
    requires |s| > 0
  {
    s[|s| - 1]
  }

  /** The present values of f over xs, in the order of xs: the shape of
      the source's `for x in xs: if ...: result.append(...)` loops. */
  function Collect<T(!new), U>(f: T -> Option<U>, xs: seq<T>): (r: seq<U>)
    ensures |r| <= |xs|
    ensures forall v :: v in r ==> exists x :: x in xs && f(x) == Some(v)
    ensures forall x :: x in xs && f(x).Some? ==> f(x).value in r
    decreases |xs|
  {
    if |xs| == 0 then []
    else
      var rest := Collect(f, xs[1..]);
      assert forall x :: x in xs <==> x == xs[0] || x in xs[1..];
      match f(xs[0])
      case Some(v) => [v] + rest
      case None => rest
  }

  /** The concatenation of f over xs: nested loops appending to one list. */
  function FlatMap<T(!new), U(!new)>(f: T -> seq<U>, xs: seq<T>): (r: seq<U>)
    ensures forall v :: v in r <==> exists x :: x in xs && v in f(x)
    decreases |xs|
  {
    if |xs| == 0 then []
    else
      assert forall x :: x in xs <==> x == xs[0] || x in xs[1..];
      f(xs[0]) + FlatMap(f, xs[1..])
  }

  /** Every pair of an x of xs and a y of ys, x-major. */
  function Pairs<T(!new), U(!new)>(xs: seq<T>, ys: seq<U>): (r: seq<(T, U)>)
    ensures forall p :: p in r <==> p.0 in xs && p.1 in ys
    decreases |xs|
  {
    if |xs| == 0 then []
    else
      assert forall x :: x in xs <==> x == xs[0] || x in xs[1..];
      Row(xs[0], ys) + Pairs(xs[1..], ys)
  }

  function Row<T(!new), U(!new)>(x: T, ys: seq<U>): (r: seq<(T, U)>)
    ensures forall p :: p in r <==> p.0 == x && p.1 in ys
    decreases |ys|
  {
    if |ys| == 0 then [] else [(x, ys[0])] + Row(x, ys[1..])
  }

  /** The smallest element of a finite non-empty set of integers. */
  function Min(s: set<int>): (r: int)
    requires s != {}
    ensures r in s
    ensures forall x :: x in s ==> r <= x
  {
    MinExists(s);
    var r :| r in s && forall x :: x in s ==> r <= x;
    r
  }

  lemma MinExists(s: set<int>)
    requires s != {}
    ensures exists r :: r in s && forall x :: x in s ==> r <= x
  {
    assert exists y :: y in s by {
      if forall y :: y !in s {
        assert false;
      }
    }
    var y :| y in s;
    if s == {y} {
      assert forall x :: x in s ==> y <= x;
    } else {
      MinExists(s - {y});
      var m :| m in s - {y} && forall x :: x in s - {y} ==> m <= x;
      var r := if y < m then y else m;
      forall x | x in s
        ensures r <= x
      {
        if x != y {
          assert x in s - {y};
        }
      }
      assert r in s;
    }
  }

  function Sum(s: seq<nat>): nat
  {
    if |s| == 0 then 0 else s[0] + Sum(s[1..])
  }

  /** The decimal digit character for d, as Python's `str` writes it. */
  function Digit(d: nat): char
    requires d < 10
  {
    "0123456789"[d]
  }

  /** Python's `str(n)` for a natural number. */
  function NatStr(n: nat): (r: string)
    ensures |r| >= 1
    ensures n < 10 ==> r == [Digit(n)]
    ensures n >= 10 ==> |r| >= 2
  {
    if n < 10 then [Digit(n)] else NatStr(n / 10) + [Digit(n % 10)]
  }

  /** Python's `str(n).zfill(2)`: pads with a leading zero up to width two. */
  function ZFill2(n: nat): (r: string)
    ensures n < 100 ==> r == [Digit(n / 10), Digit(n % 10)]
  {
    var s := NatStr(n);
    if |s| < 2 then "0" + s else s
  }

  /** The inverse of `Digit`. */
  function DigitValue(c: char): Option<nat>
  {
    if '0' <= c <= '9' then Some((c as int - '0' as int) as nat) else None
  }

  lemma DigitRoundTrip(d: nat)
    requires d < 10
    ensures DigitValue(Digit(d)) == Some(d)
  {
  }

  /** Two decimal digit characters read as a number, "07" as 7. */
  function TwoDigits(hi: char, lo: char): (r: Option<nat>)
    ensures r.Some? ==> r.value < 100
  {
    match (DigitValue(hi), DigitValue(lo))
    case (Some(h), Some(l)) => Some(10 * h + l)
    case _ => None
  }

  lemma DigitChar(c: char)
    requires DigitValue(c).Some?
    ensures DigitValue(c).value < 10 && Digit(DigitValue(c).value) == c
  {
  }

  /** Two digits read as a number are that number padded to two digits. */
  lemma PaddedDigits(hi: char, lo: char)
    requires TwoDigits(hi, lo).Some?
    ensures ZFill2(TwoDigits(hi, lo).value) == [hi, lo]
  {
    var v := TwoDigits(hi, lo).value;
    DigitChar(hi);
    DigitChar(lo);
    assert v / 10 == DigitValue(hi).value && v % 10 == DigitValue(lo).value;
  }

  // -------------------------------------------------------------- history

  /** `step_back`: the last recorded state comes off the history, and an
      empty history gives `None`. */
  function StepBack<T>(history: seq<T>): (r: (Option<T>, seq<T>))
    ensures r.0.None? <==> history == []
    ensures r.0.None? ==> r.1 == []
    ensures r.0.Some? ==> history == r.1 + [r.0.value]
  {
    if |history| == 0 then (None, [])
    else (Some(history[|history| - 1]), history[..|history| - 1])
  }

  /** The history is a stack: stepping back returns the state recorded
      last and leaves the history as it was before. */
  lemma StepBackUndoesRecord<T>(history: seq<T>, gs: T)
    ensures StepBack(history + [gs]) == (Some(gs), history)
  {
    var r := StepBack(history + [gs]);
    assert history + [gs] == r.1 + [r.0.value];
    assert |r.1| == |history|;
    assert r.1 == (history + [gs])[..|history|];
  }
}
