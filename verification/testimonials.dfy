/** The testimonials carousel (src/components/TestimonialsCarousel.tsx):
    one review at a time, a six-second auto-advance, arrows and dots. */
module Testimonials {
  import opened Types
  import opened Carousel

  const InitialIndex: int := 0

  /** `Tick` is one firing of the auto-advance interval. */
  datatype Event = Tick | NextClicked | PrevClicked | DotClicked(index: int)

  /** The index after one event, for the list `ts` of testimonials. */
  function Step(ts: seq<Testimonial>, i: int, e: Event): (j: int)
    requires |ts| > 0
    ensures (e == Tick || e == NextClicked) ==> j == Next(|ts|, i)
    ensures e == PrevClicked ==> j == Prev(|ts|, i)
    ensures e.DotClicked? ==> j == e.index
  {
    match e
    case Tick => Next(|ts|, i)
    case NextClicked => Next(|ts|, i)
    case PrevClicked => Prev(|ts|, i)
    case DotClicked(k) => k
  }

  function Run(ts: seq<Testimonial>, i: int, es: seq<Event>): int
    requires |ts| > 0
    decreases |es|
  {
    if |es| == 0 then i else Run(ts, Step(ts, i, es[0]), es[1..])
  }

  /** Dots are rendered for the testimonials only. */
  predicate FromPage(ts: seq<Testimonial>, e: Event)
  {
    e.DotClicked? ==> 0 <= e.index < |ts|
  }

  /** From the first testimonial the index stays in `[0, |ts|)`, so
      `testimonials[current]` is always defined. */
  lemma {:induction false} RunInRange(ts: seq<Testimonial>, i: int, es: seq<Event>)
    requires |ts| > 0 && 0 <= i < |ts|
    requires forall k :: 0 <= k < |es| ==> FromPage(ts, es[k])
    ensures 0 <= Run(ts, i, es) < |ts|
    decreases |es|
  {
    if |es| > 0 {
      assert FromPage(ts, es[0]);
      RunInRange(ts, Step(ts, i, es[0]), es[1..]);
    }
  }

  /** `|ts|` ticks bring the carousel back to where it started. */
  lemma TicksComeAround(ts: seq<Testimonial>, i: int)
    requires |ts| > 0 && 0 <= i < |ts|
    ensures Run(ts, i, seq(|ts|, _ => Tick)) == i
  {
    TicksAreForward(ts, i, |ts|);
    FullRound(|ts|, i);
  }

  lemma {:induction false} TicksAreForward(ts: seq<Testimonial>, i: int, k: nat)
    requires |ts| > 0
    ensures Run(ts, i, seq(k, _ => Tick)) == Forward(|ts|, i, k)
    decreases k
  {
    if k > 0 {
      var ticks := seq(k, _ => Tick);
      assert ticks == seq(k - 1, _ => Tick) + [Tick];
      RunSnoc(ts, i, seq(k - 1, _ => Tick), Tick);
      TicksAreForward(ts, i, k - 1);
    }
  }

  lemma {:induction false} RunSnoc(ts: seq<Testimonial>, i: int, es: seq<Event>, e: Event)
    requires |ts| > 0
    ensures Run(ts, i, es + [e]) == Step(ts, Run(ts, i, es), e)
    decreases |es|
  {
    if |es| == 0 {
      assert es + [e] == [e];
    } else {
      assert (es + [e])[1..] == es[1..] + [e];
      RunSnoc(ts, Step(ts, i, es[0]), es[1..], e);
    }
  }

  /** The star row: one filled star per rating point of the current review. */
  function Stars(ts: seq<Testimonial>, current: int): (r: seq<bool>)
    requires 0 <= current < |ts|
    ensures |r| == ts[current].rating
    ensures forall k :: 0 <= k < |r| ==> r[k]
  {
    seq(ts[current].rating, _ => true)
  }

  /** After a dot click, the current index is that dot and only that dot
      is styled active. */
  lemma DotMarksCurrent(ts: seq<Testimonial>, i: int, k: int)
    requires 0 <= k < |ts|
    ensures Step(ts, i, DotClicked(k)) == k
    ensures Seqs.CountTrue(Dots(|ts|, Step(ts, i, DotClicked(k)))) == 1
  {
    ExactlyOneDot(|ts|, k);
  }
}
