/** The offer ticker above the header (src/components/SuperHeader.tsx): five
    offers rotated every five seconds, each change in two phases: hide the
    text at once, switch offer and show it again 300 ms later. */
module SuperHeader {
  import opened Carousel

  const OfferCount: int := 5

  /** The shown offer, whether the text is in its hidden style, and the
      deferred switches scheduled by `setTimeout`, oldest first. */
  datatype State = State(offer: int, animating: bool, pending: seq<Move>)

  const Initial: State := State(0, false, [])

  /** `NextOffer` and `PrevOffer` are the two handlers; `TimeoutFires` is
      the oldest pending timeout running. */
  datatype Event = NextOffer | PrevOffer | TimeoutFires

  function Step(s: State, e: Event): (t: State)
    ensures e == NextOffer ==> t == s.(animating := true, pending := s.pending + [Forward1])
    ensures e == PrevOffer ==> t == s.(animating := true, pending := s.pending + [Backward1])
    ensures e == TimeoutFires && |s.pending| > 0 ==>
      t == State(Apply(OfferCount, s.offer, s.pending[0]), false, s.pending[1..])
  {
    match e
    case NextOffer => s.(animating := true, pending := s.pending + [Forward1])
    case PrevOffer => s.(animating := true, pending := s.pending + [Backward1])
    case TimeoutFires =>
      if |s.pending| == 0 then s
      else State(Apply(OfferCount, s.offer, s.pending[0]), false, s.pending[1..])
  }

  function Run(s: State, es: seq<Event>): State
    decreases |es|
  {
    if |es| == 0 then s else Run(Step(s, es[0]), es[1..])
  }

  /** Only the interval's `nextOffer` is wired: the arrow buttons and the
      indicator dots are commented out, so `prevOffer` is never called. */
  predicate Wired(e: Event)
  {
    e != PrevOffer
  }

  /** What every reachable state satisfies: the offer indexes `offers`, and
      every scheduled switch goes forward. */
  predicate Reachable(s: State)
  {
    0 <= s.offer < OfferCount && forall k :: 0 <= k < |s.pending| ==> s.pending[k] == Forward1
  }

  /** A wired event moves the offer forward by one or leaves it alone, and
      keeps the state reachable. */
  lemma WiredStepForward(s: State, e: Event)
    requires Reachable(s) && Wired(e)
    ensures Reachable(Step(s, e))
    ensures Step(s, e).offer == s.offer || Step(s, e).offer == Next(OfferCount, s.offer)
  {
    if e == NextOffer {
      var t := Step(s, e);
      assert forall k :: 0 <= k < |s.pending| ==> t.pending[k] == s.pending[k];
    }
  }

  /** From the initial state, wired events keep the offer in range and only
      ever rotate forward. */
  lemma {:induction false} RunReachable(s: State, es: seq<Event>)
    requires Reachable(s)
    requires forall k :: 0 <= k < |es| ==> Wired(es[k])
    ensures Reachable(Run(s, es))
    decreases |es|
  {
    if |es| > 0 {
      WiredStepForward(s, es[0]);
      RunReachable(Step(s, es[0]), es[1..]);
    }
  }

  /** The two phases of `nextOffer` with nothing else pending: the text hides
      at once with the offer unchanged, then the next offer is shown. */
  lemma NextOfferTwoPhases(s: State)
    requires 0 <= s.offer < OfferCount && s.pending == []
    ensures Step(s, NextOffer).animating && Step(s, NextOffer).offer == s.offer
    ensures Step(Step(s, NextOffer), TimeoutFires) == State(Next(OfferCount, s.offer), false, [])
  {
  }

  /** The same two phases for `prevOffer`, which steps back. */
  lemma PrevOfferTwoPhases(s: State)
    requires 0 <= s.offer < OfferCount && s.pending == []
    ensures Step(s, PrevOffer).animating && Step(s, PrevOffer).offer == s.offer
    ensures Step(Step(s, PrevOffer), TimeoutFires) == State(Prev(OfferCount, s.offer), false, [])
  {
  }

  datatype TextStyle = Hidden | Shown

  /** The offer text is in its hidden style exactly while animating. */
  function OfferStyle(s: State): (st: TextStyle)
    ensures st == Hidden <==> s.animating
  {
    if s.animating then Hidden else Shown
  }
}
