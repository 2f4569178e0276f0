/** The home-page banner (src/components/Hero.tsx): three slides, a
    five-second auto-advance, arrow buttons and dots. */
module Hero {
  import opened Carousel

  const SlideCount: int := 3
  const InitialSlide: int := 0

  /** `Tick` is one firing of the auto-advance interval. */
  datatype Event = Tick | NextClicked | PrevClicked | DotClicked(index: int)

  function AsMove(e: Event): Move
  {
    match e
    case Tick => Forward1
    case NextClicked => Forward1
    case PrevClicked => Backward1
    case DotClicked(k) => Jump(k)
  }

  /** The slide after one event. */
  function Step(i: int, e: Event): (j: int)
    ensures (e == Tick || e == NextClicked) && 0 <= i ==> 0 <= j < SlideCount
    ensures (e == Tick || e == NextClicked) ==> j == Next(SlideCount, i)
    ensures e == PrevClicked ==> j == Prev(SlideCount, i)
    ensures e.DotClicked? ==> j == e.index
  {
    Apply(SlideCount, i, AsMove(e))
  }

  function Moves(es: seq<Event>): (ms: seq<Move>)
    ensures |ms| == |es|
    ensures forall k :: 0 <= k < |es| ==> ms[k] == AsMove(es[k])
  {
    seq(|es|, k requires 0 <= k < |es| => AsMove(es[k]))
  }

  /** The slide after a run of events from the first slide. */
  function Run(es: seq<Event>): int
  {
    Replay(SlideCount, InitialSlide, Moves(es))
  }

  /** Dots are rendered for the three slides only. */
  predicate FromPage(e: Event)
  {
    e.DotClicked? ==> 0 <= e.index < SlideCount
  }

  /** From the first slide the index stays in `[0, 3)`, whatever the timer,
      the arrows and the dots do. */
  lemma RunInRange(es: seq<Event>)
    requires forall k :: 0 <= k < |es| ==> FromPage(es[k])
    ensures 0 <= Run(es) < SlideCount
  {
    var ms := Moves(es);
    assert forall k :: 0 <= k < |ms| ==> Offered(SlideCount, ms[k]) by {
      forall k | 0 <= k < |ms| ensures Offered(SlideCount, ms[k]) {
        assert FromPage(es[k]);
      }
    }
    ReplayInRange(SlideCount, InitialSlide, ms);
  }

  /** The arrows undo each other. */
  lemma ArrowsInverse(i: int)
    requires 0 <= i < SlideCount
    ensures Step(Step(i, PrevClicked), NextClicked) == i
    ensures Step(Step(i, NextClicked), PrevClicked) == i
  {
    PrevNextInverse(SlideCount, i);
  }

  /** After a dot click, exactly the clicked dot is styled active. */
  lemma DotMarksCurrent(i: int, k: int)
    requires 0 <= k < SlideCount
    ensures var r := Dots(SlideCount, Step(i, DotClicked(k)));
      (forall d :: 0 <= d < SlideCount ==> (r[d] <==> d == k)) && Seqs.CountTrue(r) == 1
  {
    ExactlyOneDot(SlideCount, k);
  }
}
