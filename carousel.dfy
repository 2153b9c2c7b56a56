/**
 * The two horizontal carousels (products and testimonials): the active card
 * is the scroll offset divided by the card pitch (card width plus the CSS
 * gap), rounded as Math.round rounds, and the indicator dots are rewritten so
 * that only the dot at that index is active. Offsets and widths are whole
 * pixels.
 */
module Carousel {
  import opened Wrappers
  import opened Arithmetic

  /** The gap between product cards, added to a card's width. */
  const ProductGap: nat := 16
  /** The gap between testimonial cards. */
  const TestimonialGap: nat := 12

  /** Math.round(a / b): the integer nearest to a / b, halves rounded up
      (towards +infinity). */
  function RoundDiv(a: int, b: int): (r: int)
    requires b > 0
    ensures 2 * r * b - b <= 2 * a < 2 * r * b + b
  {
    var q := (2 * a + b) / (2 * b);
    assert 2 * a + b == (2 * b) * q + (2 * a + b) % (2 * b);
    q
  }

  /** The bracket in RoundDiv's contract pins the result down: no other
      integer is within half a pitch of the offset in the same way. */
  lemma RoundDivUnique(a: int, b: int, r: int)
    requires b > 0
    requires 2 * r * b - b <= 2 * a < 2 * r * b + b
    ensures r == RoundDiv(a, b)
  {
    var q := RoundDiv(a, b);
    var d := r - q;
    assert 2 * r * b == 2 * q * b + (2 * b) * d;
    SmallMultipleIsZero(2 * b, d);
  }

  /** The dot flags that make only the dot at `k` active. */
  function DotPattern(n: nat, k: int): (dots: seq<bool>)
    ensures |dots| == n
    ensures forall i :: 0 <= i < n ==> (dots[i] <==> i == k)
  {
    seq(n, i => i == k)
  }

  function CountActive(dots: seq<bool>): nat {
    if dots == [] then 0 else (if dots[0] then 1 else 0) + CountActive(dots[1..])
  }

  /** Exactly one dot is active when the index names a dot, and none when the
      index is past the last dot (or negative). */
  lemma {:induction false} ActiveDotCount(n: nat, k: int)
    ensures CountActive(DotPattern(n, k)) == if 0 <= k < n then 1 else 0
  {
    if n > 0 {
      var dots := DotPattern(n, k);
      var tail := DotPattern(n - 1, k - 1);
      assert dots[1..] == tail;
      ActiveDotCount(n - 1, k - 1);
    }
  }

  /** The dot loop of a scroll handler: with a card present, the dots become
      the pattern of the active index; with none, they are left as they were
      (the testimonials handler returns early, the products handler fails
      when it reads the missing card's width). */
  method HighlightDots(dots: array<bool>, scrollLeft: int, card: Option<nat>, gap: nat)
    requires gap > 0
    modifies dots
    ensures card.None? ==> dots[..] == old(dots[..])
    ensures card.Some? ==> dots[..] == DotPattern(dots.Length, RoundDiv(scrollLeft, card.value + gap))
  {
    if card.None? {
      return;
    }
    var index := RoundDiv(scrollLeft, card.value + gap);
    var i := 0;
    while i < dots.Length
      invariant 0 <= i <= dots.Length
      invariant forall j :: 0 <= j < i ==> (dots[j] <==> j == index)
    {
      dots[i] := i == index;
      i := i + 1;
    }
  }

  /** The products grid's scroll handler. */
  method OnProductsScroll(dots: array<bool>, scrollLeft: int, card: Option<nat>)
    modifies dots
    ensures card.None? ==> dots[..] == old(dots[..])
    ensures card.Some? ==> dots[..] == DotPattern(dots.Length, RoundDiv(scrollLeft, card.value + ProductGap))
  {
    HighlightDots(dots, scrollLeft, card, ProductGap);
  }

  /** The testimonials grid's scroll handler. */
  method OnTestimonialsScroll(dots: array<bool>, scrollLeft: int, card: Option<nat>)
    modifies dots
    ensures card.None? ==> dots[..] == old(dots[..])
    ensures card.Some? ==> dots[..] == DotPattern(dots.Length, RoundDiv(scrollLeft, card.value + TestimonialGap))
  {
    HighlightDots(dots, scrollLeft, card, TestimonialGap);
  }

  /** Scrolling exactly to a card's offset makes that card the active one. */
  lemma {:induction false} ScrollToCardSelectsIt(i: int, pitch: int)
    requires pitch > 0
    ensures RoundDiv(pitch * i, pitch) == i
  {
    assert 2 * i * pitch - pitch <= 2 * (pitch * i) < 2 * i * pitch + pitch;
    RoundDivUnique(pitch * i, pitch, i);
  }

  /** A non-negative offset never gives a negative index. */
  lemma {:induction false} RoundDivNonNegative(a: int, b: int)
    requires b > 0 && a >= 0
    ensures RoundDiv(a, b) >= 0
  {
  }
}
