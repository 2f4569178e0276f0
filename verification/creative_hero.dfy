/** The premium hero banner (src/components/CreativeHero.tsx): three slides,
    a play/pause switch gating the five-second auto-advance, and a slide
    direction used by the transition. */
module CreativeHero {
  import opened Carousel

  const SlideCount: int := 3

  /** The current slide, whether the interval runs, and the direction of
      the last move (0 before any move). */
  datatype State = State(slide: int, playing: bool, direction: int)

  const Initial: State := State(0, true, 0)

  /** `Tick` is five seconds passing: the interval fires only while playing. */
  datatype Event = Tick | NextClicked | PrevClicked | DotClicked(index: int) | PlayPauseClicked

  function Step(s: State, e: Event): (t: State)
    ensures e == NextClicked ==> t == s.(slide := Next(SlideCount, s.slide), direction := 1)
    ensures e == PrevClicked ==> t == s.(slide := Prev(SlideCount, s.slide), direction := -1)
    ensures e == Tick && s.playing ==> t == s.(slide := Next(SlideCount, s.slide), direction := 1)
    ensures e == Tick && !s.playing ==> t == s
    ensures e.DotClicked? ==>
      t == s.(slide := e.index, direction := if e.index > s.slide then 1 else -1)
    ensures e == PlayPauseClicked ==> t == s.(playing := !s.playing)
  {
    match e
    case Tick => if s.playing then s.(slide := Next(SlideCount, s.slide), direction := 1) else s
    case NextClicked => s.(slide := Next(SlideCount, s.slide), direction := 1)
    case PrevClicked => s.(slide := Prev(SlideCount, s.slide), direction := -1)
    case DotClicked(k) => s.(slide := k, direction := if k > s.slide then 1 else -1)
    case PlayPauseClicked => s.(playing := !s.playing)
  }

  function Run(s: State, es: seq<Event>): State
    decreases |es|
  {
    if |es| == 0 then s else Run(Step(s, es[0]), es[1..])
  }

  /** The slide indexes `slides`, and the direction is one of -1, 0, 1. */
  predicate Valid(s: State)
  {
    0 <= s.slide < SlideCount && -1 <= s.direction <= 1
  }

  /** Dots are rendered for the three slides only. */
  predicate FromPage(e: Event)
  {
    e.DotClicked? ==> 0 <= e.index < SlideCount
  }

  /** Starting from the initial state, any sequence of ticks, arrow, dot and
      play/pause clicks keeps the slide in range. */
  lemma {:induction false} RunValid(s: State, es: seq<Event>)
    requires Valid(s)
    requires forall k :: 0 <= k < |es| ==> FromPage(es[k])
    ensures Valid(Run(s, es))
    decreases |es|
  {
    if |es| > 0 {
      assert FromPage(es[0]);
      RunValid(Step(s, es[0]), es[1..]);
    }
  }

  /** While paused, no amount of time passing moves the banner. */
  lemma {:induction false} PausedTicksIdle(s: State, k: nat)
    requires !s.playing
    ensures Run(s, seq(k, _ => Tick)) == s
    decreases k
  {
    if k > 0 {
      assert seq(k, _ => Tick)[1..] == seq(k - 1, _ => Tick);
      PausedTicksIdle(s, k - 1);
    }
  }

  /** The arrows undo each other's slide change. */
  lemma ArrowsInverse(s: State)
    requires Valid(s)
    ensures Step(Step(s, PrevClicked), NextClicked).slide == s.slide
    ensures Step(Step(s, NextClicked), PrevClicked).slide == s.slide
  {
    PrevNextInverse(SlideCount, s.slide);
  }

  /** Pressing play/pause twice restores the state. */
  lemma PlayPauseTwice(s: State)
    ensures Step(Step(s, PlayPauseClicked), PlayPauseClicked) == s
  {
  }

  /** Clicking the dot of the current slide still reports direction -1. */
  lemma CurrentDotGoesBackward(s: State)
    ensures Step(s, DotClicked(s.slide)) == s.(direction := -1)
  {
  }
}
