/**
 * The testimonials carousel's auto-advance: a mutable index that an interval
 * timer moves on by one card (modulo the number of cards) and scrolls to,
 * paused when a touch starts and restarted, re-seeded from the scroll
 * position, when a touch ends. Dot clicks scroll to their card.
 *
 * Timers are modelled by identity: `live` holds the intervals still
 * scheduled, `handle` the one held in the handler's variable.
 */
module AutoAdvance {
  import opened Wrappers
  import opened Carousel
  import opened Arithmetic

  /** The index as JavaScript holds it: an integer, or NaN once it has been
      taken modulo zero cards. */
  datatype Index = Num(n: int) | NaN

  /** JavaScript's `%` on integers: truncated division, so the remainder
      takes the sign of the dividend. */
  function JsRem(a: int, n: int): (r: int)
    requires n > 0
    ensures (a - r) % n == 0
    ensures -n < r < n
    ensures a >= 0 ==> r == a % n
    ensures a <= 0 ==> r <= 0
  {
    if a >= 0 then
      assert a - a % n == n * (a / n);
      MultipleMod(n, a / n);
      a % n
    else
      var q, m := (-a) / n, (-a) % n;
      assert a + m == n * -q;
      MultipleMod(n, -q);
      -m
  }

  /** One auto-advance step: `(autoScrollIndex + 1) % totalCards`. The
      result is a card index whenever the old index was at least -1; it is
      NaN with no cards. */
  function NextIndex(i: Index, totalCards: nat): (r: Index)
    ensures r.NaN? <==> (totalCards == 0 || i.NaN?)
    ensures r.Num? ==> -(totalCards as int) < r.n < totalCards && (i.n + 1 - r.n) % totalCards == 0
    ensures r.Num? && i.n >= -1 ==> 0 <= r.n < totalCards
    ensures r.Num? && i.n + 1 <= 0 ==> r.n <= 0
  {
    if totalCards == 0 || i.NaN? then NaN
    else Num(JsRem(i.n + 1, totalCards))
  }

  /** The index after `k` ticks. */
  function Advance(i: Index, totalCards: nat, k: nat): Index
    decreases k
  {
    if k == 0 then i else NextIndex(Advance(i, totalCards, k - 1), totalCards)
  }

  lemma ModSucc(k: nat, n: nat)
    requires n > 0
    ensures (k % n + 1) % n == (k + 1) % n
  {
    var q, r := k / n, k % n;
    if r + 1 < n {
      DivModUnique(k + 1, n, q, r + 1);
    } else {
      DivModUnique(k + 1, n, q + 1, 0);
    }
  }

  /** Started at the first card, the ticks visit the cards in a cycle:
      after k ticks the index is k modulo the number of cards. */
  lemma {:induction false} AdvanceCycles(totalCards: nat, k: nat)
    requires totalCards > 0
    ensures Advance(Num(0), totalCards, k) == Num(k % totalCards)
  {
    if k > 0 {
      AdvanceCycles(totalCards, k - 1);
      ModSucc(k - 1, totalCards);
    }
  }

  /** A re-seed from a non-negative scroll offset, however far past the
      last card, is brought back into range by the next tick. */
  lemma ReseededTickInRange(scrollLeft: int, pitch: int, totalCards: nat)
    requires scrollLeft >= 0 && pitch > 0 && totalCards > 0
    ensures var r := NextIndex(Num(RoundDiv(scrollLeft, pitch)), totalCards);
      r.Num? && 0 <= r.n < totalCards
  {
    RoundDivNonNegative(scrollLeft, pitch);
  }

  /** A re-seed below -1 (an offset of more than one and a half cards to the
      left of the start) is brought back to a card index only when the index
      after it is a multiple of the card count: otherwise JavaScript's `%`
      keeps the sign and the tick gives a negative index. */
  lemma NegativeSeedSign(s: int, totalCards: nat)
    requires totalCards > 0 && s + 1 < 0
    ensures var r := NextIndex(Num(s), totalCards);
      r.Num? && (r.n < 0 <==> (s + 1) % totalCards != 0) && (r.n >= 0 ==> r.n == 0)
  {
    var a, n := s + 1, totalCards as int;
    var q, m := (-a) / n, (-a) % n;
    assert -a == n * q + m;
    if m == 0 {
      assert a == n * -q;
      MultipleMod(n, -q);
    } else {
      assert a == n * (-q - 1) + (n - m);
      DivModUnique(a, n, -q - 1, n - m);
    }
  }

  /** An instance: a re-seed of -3 with five cards gives -2. */
  lemma NegativeSeedStaysNegative()
    ensures NextIndex(Num(-3), 5) == Num(-2)
  {
  }

  // ---------------------------------------------------------------------
  // Interval timers
  // ---------------------------------------------------------------------

  datatype Timers = Timers(live: set<nat>, handle: nat, nextId: nat)

  /** The page as loaded: one interval, id 0, in the handle. */
  const InitialTimers: Timers := Timers({0}, 0, 1)

  /** Interval ids are handed out in order: the handle and every running
      interval were started before `nextId`. */
  predicate WellNumbered(t: Timers) {
    t.handle < t.nextId && forall id :: id in t.live ==> id < t.nextId
  }

  /** At most one interval runs, and it is the one in the handle. */
  predicate AtMostOneRunning(t: Timers) {
    t.live <= {t.handle} && t.handle < t.nextId
  }

  /** touchstart: clearInterval on the handle. */
  function ClearHandle(t: Timers): (r: Timers)
    ensures r.live == t.live - {t.handle} && r.handle == t.handle && r.nextId == t.nextId
    ensures WellNumbered(t) ==> WellNumbered(r)
    ensures AtMostOneRunning(t) ==> AtMostOneRunning(r) && r.live == {}
  {
    t.(live := t.live - {t.handle})
  }

  /** touchend as written: a new interval starts and its id overwrites the
      handle, whatever interval the handle held. */
  function RestartAsWritten(t: Timers): (r: Timers)
    ensures t.live <= r.live && r.handle in r.live
    ensures t.handle in t.live && t.handle != t.nextId ==> t.handle in r.live && t.handle != r.handle
    ensures WellNumbered(t) ==> WellNumbered(r) && r.live == t.live + {r.handle} && r.handle !in t.live
    ensures AtMostOneRunning(t) ==> (AtMostOneRunning(r) <==> t.live == {})
  {
    Timers(t.live + {t.nextId}, t.nextId, t.nextId + 1)
  }

  /** The corrected touchend: the interval in the handle is cleared before
      the new one starts, so the new one is the only one running. */
  function Restart(t: Timers): (r: Timers)
    ensures AtMostOneRunning(t) ==> AtMostOneRunning(r) && r.live == {r.handle}
  {
    Timers((t.live - {t.handle}) + {t.nextId}, t.nextId, t.nextId + 1)
  }

  /** Two fingers: two touchstarts clear the same interval, then each of the
      two touchends starts one. As written, the first of them is no longer
      in the handle: it keeps running, and the next touch cannot stop it. */
  lemma TwoFingerTouchLeaksInterval()
    ensures var t := RestartAsWritten(RestartAsWritten(ClearHandle(ClearHandle(InitialTimers))));
      t.live == {1, 2} && ClearHandle(t).live == {1}
  {
  }

  /** What the code as written does guarantee: a single finger's touchstart
      and touchend, from at most one running interval, leave exactly the new
      interval running. */
  lemma SingleFingerTouchKeepsOneTimer(t: Timers)
    requires AtMostOneRunning(t)
    ensures var r := RestartAsWritten(ClearHandle(t)); AtMostOneRunning(r) && r.live == {r.handle}
  {
    assert ClearHandle(t).live == {};
  }

  /** With the correction, one touchstart or touchend keeps at most one
      interval running, and a touchstart always stops the auto-advance;
      `CorrectedTouchesKeepOneTimer` extends this to any sequence. */
  lemma CorrectedTouchKeepsOneTimer(t: Timers)
    requires AtMostOneRunning(t)
    ensures AtMostOneRunning(ClearHandle(t)) && ClearHandle(t).live == {}
    ensures AtMostOneRunning(Restart(t)) && |Restart(t).live| == 1
  {
  }

  /** A sequence of touch events with the corrected handlers: `true` is a
      touchstart, `false` a touchend. */
  function CorrectedTouches(t: Timers, events: seq<bool>): Timers
    decreases |events|
  {
    if events == [] then t
    else CorrectedTouches(if events[0] then ClearHandle(t) else Restart(t), events[1..])
  }

  /** With the correction, any sequence of touches, however the fingers
      interleave, leaves at most one interval running. */
  lemma {:induction false} CorrectedTouchesKeepOneTimer(t: Timers, events: seq<bool>)
    requires AtMostOneRunning(t)
    ensures AtMostOneRunning(CorrectedTouches(t, events))
    decreases |events|
  {
    if events != [] {
      var next := if events[0] then ClearHandle(t) else Restart(t);
      CorrectedTouchKeepsOneTimer(t);
      CorrectedTouchesKeepOneTimer(next, events[1..]);
    }
  }

  // ---------------------------------------------------------------------
  // The testimonials carousel
  // ---------------------------------------------------------------------

  class Testimonials {
    const totalCards: nat
    /** The first card's width plus the gap; read only when there is a card. */
    const pitch: nat
    var index: Index
    var timers: Timers
    /** The `left` of the most recent scrollTo, if any. */
    var scrollTarget: Option<int>

    /** The pitch is positive, interval ids are handed out in order and the
        index is a number while there are cards. Several intervals may run:
        the code does not rule that out. */
    ghost predicate Valid()
      reads this
    {
      pitch > 0 && WellNumbered(timers) && (totalCards > 0 ==> index.Num?)
    }

    constructor (totalCards: nat, cardWidth: nat)
      ensures this.totalCards == totalCards && pitch == cardWidth + TestimonialGap
      ensures index == Num(0) && timers == InitialTimers && scrollTarget == None
      ensures Valid() && AtMostOneRunning(timers)
    {
      this.totalCards := totalCards;
      pitch := cardWidth + TestimonialGap;
      index := Num(0);
      timers := InitialTimers;
      scrollTarget := None;
    }

    /** A firing of a running interval, whichever one it is: the index moves
        on by one card and the grid is scrolled to that card, which the dot
        handler will then mark active. With no card there is nothing to
        scroll. */
    method Tick(id: nat)
      requires Valid() && id in timers.live
      modifies this`index, this`scrollTarget
      ensures Valid()
      ensures index == NextIndex(old(index), totalCards)
      ensures totalCards == 0 ==> scrollTarget == old(scrollTarget)
      ensures totalCards > 0 ==>
        scrollTarget == Some(pitch * index.n) && RoundDiv(scrollTarget.value, pitch) == index.n
    {
      index := NextIndex(index, totalCards);
      if totalCards == 0 {
        return;
      }
      scrollTarget := Some(pitch * index.n);
      ScrollToCardSelectsIt(index.n, pitch);
    }

    /** touchstart clears the interval in the handle; any other running
        interval goes on. */
    method TouchStart()
      requires Valid()
      modifies this`timers
      ensures Valid()
      ensures timers == ClearHandle(old(timers))
      ensures old(AtMostOneRunning(timers)) ==> timers.live == {}
    {
      timers := ClearHandle(timers);
    }

    /** touchend re-seeds the index from the scroll position and starts a
        new interval whose id overwrites the handle, without clearing the
        interval the handle held; with no card it does nothing. */
    method TouchEnd(scrollLeft: int)
      requires Valid()
      modifies this`index, this`timers
      ensures Valid()
      ensures totalCards == 0 ==> index == old(index) && timers == old(timers)
      ensures totalCards > 0 ==>
        index == Num(RoundDiv(scrollLeft, pitch)) && timers == RestartAsWritten(old(timers)) &&
        timers.live == old(timers.live) + {timers.handle} && timers.handle !in old(timers.live)
    {
      if totalCards == 0 {
        return;
      }
      index := Num(RoundDiv(scrollLeft, pitch));
      timers := RestartAsWritten(timers);
    }

    /** A click on dot `i` scrolls to card `i`, where the dot handler marks
        dot `i` active. */
    method DotClick(i: nat)
      requires Valid()
      modifies this`scrollTarget
      ensures Valid()
      ensures totalCards == 0 ==> scrollTarget == old(scrollTarget)
      ensures totalCards > 0 ==> scrollTarget == Some(pitch * i) && RoundDiv(scrollTarget.value, pitch) == i
    {
      if totalCards == 0 {
        return;
      }
      scrollTarget := Some(pitch * i);
      ScrollToCardSelectsIt(i, pitch);
    }
  }

  /** One finger touches and lets go: from at most one running interval,
      exactly the new interval runs afterwards, and the index is re-seeded
      from the scroll position. */
  method SingleFingerTouch(c: Testimonials, scrollLeft: int)
    requires c.Valid() && AtMostOneRunning(c.timers) && c.totalCards > 0
    modifies c
    ensures c.Valid() && AtMostOneRunning(c.timers) && c.timers.live == {c.timers.handle}
    ensures c.index == Num(RoundDiv(scrollLeft, c.pitch))
  {
    c.TouchStart();
    c.TouchEnd(scrollLeft);
  }

  /** Two fingers on the page as loaded: two touchstarts, then two
      touchends. Intervals 1 and 2 are both left running, and only interval
      2 is in the handle for the next touchstart to clear. */
  method TwoFingerTouch(c: Testimonials, firstLift: int, secondLift: int)
    requires c.Valid() && c.timers == InitialTimers && c.totalCards > 0
    modifies c
    ensures c.Valid() && c.timers.live == {1, 2} && c.timers.handle == 2
    ensures c.index == Num(RoundDiv(secondLift, c.pitch))
  {
    c.TouchStart();
    c.TouchStart();
    c.TouchEnd(firstLift);
    c.TouchEnd(secondLift);
  }
}
