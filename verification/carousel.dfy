/** The slide index shared by the storefront's rotating banners: a position
    in `[0, n)` moved forward, backward, or straight to a dot, for a fixed
    number `n` of slides. */
module Carousel {
  import opened Seqs

  /** JavaScript's `%`: truncating division, so the remainder takes the
      sign of the dividend. */
  function Rem(a: int, n: int): (r: int)
    requires n > 0
    ensures a >= 0 ==> 0 <= r < n && r == a % n
    ensures a < 0 ==> -n < r <= 0
  {
    if a >= 0 then a % n else -((-a) % n)
  }

  /** `(i + 1) % n`. */
  function Next(n: int, i: int): (j: int)
    requires n > 0
    ensures 0 <= i ==> 0 <= j < n
    ensures 0 <= i < n - 1 ==> j == i + 1
    ensures i == n - 1 ==> j == 0
  {
    Rem(i + 1, n)
  }

  /** `(i - 1 + n) % n`. */
  function Prev(n: int, i: int): (j: int)
    requires n > 0
    ensures 0 <= i ==> 0 <= j < n
    ensures 0 < i < n ==> j == i - 1
    ensures i == 0 ==> j == n - 1
  {
    Rem(i - 1 + n, n)
  }

  /** From any valid index, stepping back and then forward returns there,
      and so does forward then back. */
  lemma PrevNextInverse(n: int, i: int)
    requires n > 0 && 0 <= i < n
    ensures Next(n, Prev(n, i)) == i
    ensures Prev(n, Next(n, i)) == i
  {
  }

  /** `k` forward steps from `i`. */
  function Forward(n: int, i: int, k: nat): int
    requires n > 0
    decreases k
  {
    if k == 0 then i else Next(n, Forward(n, i, k - 1))
  }

  /** Forward steps that do not pass the last slide just count up. */
  lemma {:induction false} ForwardWithoutWrap(n: int, i: int, k: nat)
    requires n > 0 && 0 <= i && i + k < n
    ensures Forward(n, i, k) == i + k
    decreases k
  {
    if k > 0 {
      ForwardWithoutWrap(n, i, k - 1);
    }
  }

  /** Forward steps compose. */
  lemma {:induction false} ForwardSplit(n: int, i: int, a: nat, b: nat)
    requires n > 0
    ensures Forward(n, i, a + b) == Forward(n, Forward(n, i, a), b)
    decreases b
  {
    if b > 0 {
      ForwardSplit(n, i, a, b - 1);
    }
  }

  /** A full round of `n` forward steps comes back to the start. */
  lemma FullRound(n: int, i: int)
    requires n > 0 && 0 <= i < n
    ensures Forward(n, i, n) == i
  {
    ForwardWithoutWrap(n, i, n - 1 - i);
    assert Forward(n, i, n - i) == 0;
    ForwardSplit(n, i, n - i, i);
    ForwardWithoutWrap(n, 0, i);
  }

  /** A navigation request: forward, backward, or a dot click. Dots are
      rendered only for the indices `0 .. n-1`. */
  datatype Move = Forward1 | Backward1 | Jump(target: int)

  predicate Offered(n: int, m: Move)
  {
    m.Jump? ==> 0 <= m.target < n
  }

  function Apply(n: int, i: int, m: Move): int
    requires n > 0
  {
    match m
    case Forward1 => Next(n, i)
    case Backward1 => Prev(n, i)
    case Jump(t) => t
  }

  function Replay(n: int, i: int, ms: seq<Move>): int
    requires n > 0
    decreases |ms|
  {
    if |ms| == 0 then i else Replay(n, Apply(n, i, ms[0]), ms[1..])
  }

  /** Starting from a valid index, any sequence of forward, backward and dot
      moves keeps the index in `[0, n)`. */
  lemma {:induction false} ReplayInRange(n: int, i: int, ms: seq<Move>)
    requires n > 0 && 0 <= i < n
    requires forall k :: 0 <= k < |ms| ==> Offered(n, ms[k])
    ensures 0 <= Replay(n, i, ms) < n
    decreases |ms|
  {
    if |ms| > 0 {
      ReplayInRange(n, Apply(n, i, ms[0]), ms[1..]);
    }
  }

  /** The dot row: dot `k` is styled active when `k` is the current index. */
  function Dots(n: nat, i: int): (r: seq<bool>)
    ensures |r| == n
    ensures forall k :: 0 <= k < n ==> (r[k] <==> k == i)
  {
    seq(n, k => k == i)
  }

  /** For a valid index exactly one dot is active. */
  lemma {:induction false} ExactlyOneDot(n: nat, i: int)
    requires 0 <= i < n
    ensures CountTrue(Dots(n, i)) == 1
  {
    OneTrueAt(Dots(n, i), i);
  }

  lemma {:induction false} OneTrueAt(s: seq<bool>, i: int)
    requires 0 <= i < |s|
    requires forall k :: 0 <= k < |s| ==> (s[k] <==> k == i)
    ensures CountTrue(s) == 1
    decreases |s|
  {
    if i == 0 {
      NoneTrue(s[1..]);
    } else {
      OneTrueAt(s[1..], i - 1);
    }
  }

  lemma {:induction false} NoneTrue(s: seq<bool>)
    requires forall k :: 0 <= k < |s| ==> !s[k]
    ensures CountTrue(s) == 0
    decreases |s|
  {
    if |s| > 0 {
      NoneTrue(s[1..]);
    }
  }
}
